/**
 The budget loop over explicitly requested files (kitt/context/retrieval.py, lines 286-342).

 Reading, hashing, splitting into lines and words are functions of the workspace. Whether a file can
 be read does not depend on how much of it is asked for.
 */
module ExplicitFiles {
  import opened Common
  import opened ContextSelector

  /** A requested path: the workspace root or an unreadable file, or a readable one. */
  datatype Request = Skipped | File(rel: string)

  datatype Prefix = Prefix(text: string, complete: bool)

  datatype Workspace = Workspace(
    maxFileBytes: nat,
    read: (string, nat) -> Prefix,
    hash: (string, string) -> string,
    lines: string -> nat,
    terms: (string, string) -> set<string>)

  const SUFFIX := "\n... [truncated explicit file]"

  function FairShare(remaining: nat, filesLeft: int): (r: nat)
    ensures r >= 1
  {
    Max(1, remaining / Max(1, filesLeft))
  }

  function Estimate(fair: nat, length: nat): nat {
    Max(1, Min(fair, if length / 4 == 0 then 1 else length / 4))
  }

  predicate Cut(prefix: Prefix, charLimit: nat) {
    !prefix.complete || |prefix.text| > charLimit
  }

  function Clip(prefix: Prefix, charLimit: nat): string {
    if Cut(prefix, charLimit) then prefix.text[..Min(|prefix.text|, Max(0, charLimit - |SUFFIX|))] + SUFFIX
    else prefix.text
  }

  /** The candidate for a file that may use `fair` tokens. */
  function CandidateFor(w: Workspace, rel: string, fair: nat): Candidate {
    var charLimit := Max(1, fair * 4);
    var prefix := w.read(rel, Min(w.maxFileBytes, charLimit + 4));
    var text := Clip(prefix, charLimit);
    Candidate("file:" + rel, rel, Some(1), Some(w.lines(text)), w.hash(rel, prefix.text), Estimate(fair, |text|),
      1.0, 1.0, 1.0, true, [], if Cut(prefix, charLimit) then TargetedSlice else Body, text, w.terms(rel, text))
  }

  datatype Progress = Progress(candidates: seq<Candidate>, remaining: nat)

  /** The loop's state after the first `k` requests; with nothing left the loop does nothing more. */
  function After(w: Workspace, requests: seq<Request>, maxTokens: int, k: nat): Progress
    requires k <= |requests|
  {
    if k == 0 then Progress([], Max(0, maxTokens))
    else
      Serve(w, After(w, requests, maxTokens, k - 1), requests[k - 1], |requests| - (k - 1))
  }

  /** One turn of the loop. */
  function Serve(w: Workspace, p: Progress, request: Request, filesLeft: nat): Progress {
    if p.remaining == 0 || request.Skipped? then p
    else
      var c := CandidateFor(w, request.rel, FairShare(p.remaining, filesLeft));
      Progress(p.candidates + [c], Max(0, p.remaining - c.tokens))
  }

  function Readable(requests: seq<Request>): nat {
    if requests == [] then 0
    else Readable(requests[..|requests| - 1]) + if requests[|requests| - 1].File? then 1 else 0
  }

  // ---------------------------------------------------------------- one candidate

  /** The estimate without the division: a quarter of the length, but at least one and at most the share. */
  lemma {:induction false} EstimateIsQuarter(fair: nat, length: nat)
    requires fair >= 1
    ensures var t := Estimate(fair, length);
      1 <= t <= fair && (t == 1 || 4 * t <= length) && (t == fair || length < 4 * (t + 1))
  {
  }

  /** What a served file shows. Asked for four characters a token, it is there whole when it is complete and
      no longer; otherwise it is a beginning of it and the note that it was cut, as long as four characters
      a token allow, or the note alone. */
  lemma {:induction false} CandidateShowsFile(w: Workspace, rel: string, fair: nat)
    requires fair >= 1
    ensures var c := CandidateFor(w, rel, fair);
      var read := w.read(rel, if w.maxFileBytes < 4 * fair + 4 then w.maxFileBytes else 4 * fair + 4);
      && (c.representation == Body <==> read.complete && |read.text| <= 4 * fair)
      && (c.representation == Body ==> c.content == read.text)
      && (c.representation != Body ==>
            && c.representation == TargetedSlice && |c.content| >= 30
            && c.content[|c.content| - 30..] == "\n... [truncated explicit file]" && c.content[..|c.content| - 30] <= read.text
            && (|c.content| == 30 || |c.content| <= 4 * fair)
            && (|c.content| - 30 == |read.text| || |c.content| >= 4 * fair))
      && c.id == "file:" + rel && c.path == rel && c.start == Some(1) && c.end == Some(w.lines(c.content))
      && c.hash == w.hash(rel, read.text) && c.terms == w.terms(rel, c.content) && c.mandatory && c.deps == []
      && c.tokens == Estimate(fair, |c.content|) && c.relevance == c.confidence == c.freshness == 1.0
  {
    assert |SUFFIX| == 30;
    var c := CandidateFor(w, rel, fair);
    assert c.representation != Body ==> c.content[|c.content| - 30..] == SUFFIX;
  }

  // ---------------------------------------------------------------- one share

  lemma {:induction false} MulMono(a: nat, b: nat, c: nat)
    requires a <= b
    ensures a * c <= b * c
  {
  }

  /** The quotient, without the division. */
  lemma {:induction false} DivBounds(a: nat, b: nat)
    requires 0 < b
    ensures a / b * b <= a < (a / b + 1) * b
  {
  }

  lemma {:induction false} ShareIsQuotient(remaining: nat, filesLeft: nat)
    requires filesLeft > 0
    ensures var f := FairShare(remaining, filesLeft);
      (remaining < filesLeft ==> f == 1) && (remaining >= filesLeft ==> f * filesLeft <= remaining < (f + 1) * filesLeft)
  {
    var q := remaining / filesLeft;
    DivBounds(remaining, filesLeft);
    if q == 0 {
      assert remaining < 1 * filesLeft;
    } else {
      MulMono(1, q, filesLeft);
    }
  }

  lemma {:induction false} ShareFits(remaining: nat, filesLeft: nat, length: nat)
    requires remaining > 0 && filesLeft > 0
    ensures 1 <= Estimate(FairShare(remaining, filesLeft), length) <= FairShare(remaining, filesLeft) <= remaining
  {
    ShareIsQuotient(remaining, filesLeft);
    MulMono(1, filesLeft, FairShare(remaining, filesLeft));
  }

  /** What is left after a share still gives every later file the same share. */
  lemma {:induction false} ShareLeavesEnough(remaining: nat, filesLeft: nat, share: nat)
    requires filesLeft > 0 && share >= 1 && remaining >= share * filesLeft
    ensures FairShare(remaining, filesLeft) >= share
    ensures remaining - FairShare(remaining, filesLeft) >= share * (filesLeft - 1)
  {
    var f := FairShare(remaining, filesLeft);
    MulMono(1, share, filesLeft);
    ShareIsQuotient(remaining, filesLeft);
    if f < share {
      MulMono(f + 1, share, filesLeft);
    } else {
      MulMono(share, f, filesLeft - 1);
      assert f * filesLeft - f == f * (filesLeft - 1);
    }
  }

  /** There are `share` tokens for each of the files left. */
  ghost predicate Affords(remaining: nat, share: nat, filesLeft: nat) { remaining >= share * filesLeft }

  lemma {:induction false} ShareSpares(remaining: nat, filesLeft: nat)
    requires filesLeft > 0
    ensures remaining >= filesLeft ==> remaining - FairShare(remaining, filesLeft) >= filesLeft - 1
    ensures remaining < filesLeft ==> FairShare(remaining, filesLeft) == 1
  {
    ShareIsQuotient(remaining, filesLeft);
    if remaining >= filesLeft { ShareLeavesEnough(remaining, filesLeft, 1); }
  }

  lemma {:induction false} AffordsNext(before: nat, after: nat, share: nat, filesLeft: nat)
    requires Affords(before, share, filesLeft) && filesLeft > 0 && share >= 1
    requires before - FairShare(before, filesLeft) <= after
    ensures Affords(after, share, filesLeft - 1)
  {
    ShareLeavesEnough(before, filesLeft, share);
  }

  lemma {:induction false} ShareAfforded(remaining: nat, share: nat, filesLeft: nat)
    requires Affords(remaining, share, filesLeft) && filesLeft > 0 && share >= 1
    ensures FairShare(remaining, filesLeft) >= share
  {
    ShareLeavesEnough(remaining, filesLeft, share);
  }

  lemma {:induction false} ServedCost(w: Workspace, rel: string, remaining: nat, filesLeft: nat, fair: nat)
    requires remaining > 0 && filesLeft > 0 && fair == FairShare(remaining, filesLeft)
    ensures var c := CandidateFor(w, rel, fair); Cost(c) == c.tokens && 1 <= c.tokens <= fair <= remaining
  {
    ShareFits(remaining, filesLeft, |CandidateFor(w, rel, fair).content|);
  }

  // ---------------------------------------------------------------- the whole loop

  /** What one request makes of the loop's state: nothing, or one more candidate that leaves enough for
      the files after it. */
  ghost predicate Follows(p: Progress, q: Progress, request: Request, filesLeft: nat) {
    if p.remaining == 0 || request.Skipped? then q == p
    else
      && |q.candidates| == |p.candidates| + 1 && q.remaining < p.remaining
      && TotalCost(q.candidates) == TotalCost(p.candidates) + p.remaining - q.remaining
      && (p.remaining >= filesLeft ==> q.remaining >= filesLeft - 1)
      && (p.remaining < filesLeft ==> q.remaining == p.remaining - 1)
  }

  /** A candidate that costs no more than a share sparing a token for each later file. */
  lemma {:induction false} OneMoreFollows(p: Progress, c: Candidate, fair: nat, request: Request, filesLeft: nat)
    requires p.remaining > 0 && request.File? && filesLeft > 0 && Cost(c) == c.tokens && 1 <= c.tokens <= fair <= p.remaining
    requires p.remaining >= filesLeft ==> p.remaining - fair >= filesLeft - 1
    requires p.remaining < filesLeft ==> fair == 1
    ensures Follows(p, Progress(p.candidates + [c], p.remaining - c.tokens), request, filesLeft)
  {
    TotalCostSnoc(p.candidates, c);
  }

  lemma {:induction false} ServeFollows(w: Workspace, p: Progress, request: Request, filesLeft: nat)
    requires filesLeft > 0
    ensures Follows(p, Serve(w, p, request, filesLeft), request, filesLeft)
  {
    if p.remaining > 0 && request.File? {
      var fair := FairShare(p.remaining, filesLeft);
      ServedCost(w, request.rel, p.remaining, filesLeft, fair);
      ShareSpares(p.remaining, filesLeft);
      OneMoreFollows(p, CandidateFor(w, request.rel, fair), fair, request, filesLeft);
    }
  }

  lemma {:induction false} ServeAffords(w: Workspace, p: Progress, request: Request, filesLeft: nat, share: nat)
    requires filesLeft > 0 && share >= 1 && Affords(p.remaining, share, filesLeft)
    ensures Affords(Serve(w, p, request, filesLeft).remaining, share, filesLeft - 1)
  {
    MulMono(filesLeft - 1, filesLeft, share);
    if p.remaining > 0 && request.File? {
      ServedCost(w, request.rel, p.remaining, filesLeft, FairShare(p.remaining, filesLeft));
      AffordsNext(p.remaining, Serve(w, p, request, filesLeft).remaining, share, filesLeft);
    }
  }

  /** The states of the loop, one after each request. */
  ghost predicate Trace(ps: seq<Progress>, requests: seq<Request>, maxTokens: int) {
    && |ps| == |requests| + 1 && ps[0] == Progress([], Max(0, maxTokens))
    && forall k :: 0 <= k < |requests| ==> Follows(ps[k], ps[k + 1], requests[k], |requests| - k)
  }

  lemma {:induction false} LoopTrace(w: Workspace, requests: seq<Request>, maxTokens: int) returns (ps: seq<Progress>)
    ensures Trace(ps, requests, maxTokens)
    ensures forall k :: 0 <= k <= |requests| ==> ps[k] == After(w, requests, maxTokens, k)
  {
    ps := seq(|requests| + 1, k requires 0 <= k <= |requests| => After(w, requests, maxTokens, k));
    forall k | 0 <= k < |requests| ensures Follows(ps[k], ps[k + 1], requests[k], |requests| - k) {
      ServeFollows(w, ps[k], requests[k], |requests| - k);
    }
  }

  lemma {:induction false} TraceConserves(ps: seq<Progress>, requests: seq<Request>, maxTokens: int, k: nat)
    requires Trace(ps, requests, maxTokens) && k <= |requests|
    ensures TotalCost(ps[k].candidates) + ps[k].remaining == Max(0, maxTokens)
  {
    if k > 0 {
      TraceConserves(ps, requests, maxTokens, k - 1);
      assert Follows(ps[k - 1], ps[k], requests[k - 1], |requests| - (k - 1));
    }
  }

  /** Conservation: what was given out and what is left add up to the budget. */
  lemma {:induction false} TokensAreConserved(w: Workspace, requests: seq<Request>, maxTokens: int, k: nat)
    requires k <= |requests|
    ensures var p := After(w, requests, maxTokens, k);
      TotalCost(p.candidates) + p.remaining == Max(0, maxTokens)
  {
    var ps := LoopTrace(w, requests, maxTokens);
    TraceConserves(ps, requests, maxTokens, k);
  }

  /** A share that the budget affords for every request is still afforded at each later one. */
  lemma {:induction false} ShareLasts(w: Workspace, requests: seq<Request>, maxTokens: nat, share: nat, k: nat)
    requires k <= |requests| && share >= 1 && Affords(maxTokens, share, |requests|)
    ensures Affords(After(w, requests, maxTokens, k).remaining, share, |requests| - k)
  {
    if k > 0 {
      ShareLasts(w, requests, maxTokens, share, k - 1);
      ServeAffords(w, After(w, requests, maxTokens, k - 1), requests[k - 1], |requests| - (k - 1), share);
    }
  }

  /** With at least one token per request, every request is offered at least an even share. */
  lemma {:induction false} SharesAreFair(w: Workspace, requests: seq<Request>, maxTokens: nat, k: nat)
    requires k < |requests| <= maxTokens
    ensures FairShare(After(w, requests, maxTokens, k).remaining, |requests| - k) >= maxTokens / |requests| >= 1
  {
    var share := EvenShare(maxTokens, |requests|);
    ShareLasts(w, requests, maxTokens, share, k);
    ShareAfforded(After(w, requests, maxTokens, k).remaining, share, |requests| - k);
  }

  lemma {:induction false} EvenShare(maxTokens: nat, n: nat) returns (share: nat)
    requires 0 < n <= maxTokens
    ensures share == maxTokens / n >= 1 && maxTokens >= share * n
  {
    share := maxTokens / n;
    DivBounds(maxTokens, n);
  }

  lemma {:induction false} ReadableStep(requests: seq<Request>, k: nat)
    requires 0 < k <= |requests|
    ensures Readable(requests[..k]) == Readable(requests[..k - 1]) + if requests[k - 1].File? then 1 else 0
  {
    assert requests[..k][..k - 1] == requests[..k - 1];
  }

  lemma {:induction false} ReadableLeft(requests: seq<Request>, k: nat)
    requires k <= |requests|
    ensures Readable(requests[..k]) <= Readable(requests) <= Readable(requests[..k]) + (|requests| - k)
    decreases |requests| - k
  {
    if k < |requests| {
      ReadableLeft(requests, k + 1);
      ReadableStep(requests, k + 1);
    } else {
      assert requests[..k] == requests;
    }
  }

  /** While tokens remain no readable file is passed over, and the tokens last exactly as long as
      there are at least as many of them as readable files. */
  lemma {:induction false} TokensLast(ps: seq<Progress>, requests: seq<Request>, maxTokens: int, k: nat)
    requires Trace(ps, requests, maxTokens) && k <= |requests|
    ensures var p, m, seen, all := ps[k], Max(0, maxTokens), Readable(requests[..k]), Readable(requests);
      && (m >= all ==> p.remaining >= all - seen && |p.candidates| == seen)
      && (m < all ==> |p.candidates| == Min(seen, m) && p.remaining == m - Min(seen, m))
  {
    if k > 0 {
      TokensLast(ps, requests, maxTokens, k - 1);
      ReadableStep(requests, k);
      ReadableLeft(requests, k);
      ReadableLeft(requests, k - 1);
      assert Follows(ps[k - 1], ps[k], requests[k - 1], |requests| - (k - 1));
    }
  }

  /** The number of files served is the smaller of the readable files and the budget, so every
      readable file becomes a candidate if and only if there is a token for each. */
  lemma {:induction false} AllServedIffEnough(w: Workspace, requests: seq<Request>, maxTokens: int)
    ensures var served := |After(w, requests, maxTokens, |requests|).candidates|;
      served == Min(Readable(requests), Max(0, maxTokens))
      && (served == Readable(requests) <==> Readable(requests) <= Max(0, maxTokens))
  {
    var ps := LoopTrace(w, requests, maxTokens);
    TokensLast(ps, requests, maxTokens, |requests|);
    assert requests[..|requests|] == requests;
  }

  /** The paths of the readable requests, in order. */
  function ReadablePaths(requests: seq<Request>): seq<string> {
    if requests == [] then []
    else
      var last := requests[|requests| - 1];
      ReadablePaths(requests[..|requests| - 1]) + if last.File? then [last.rel] else []
  }

  /** Files are served in the order requested, none passed over while there are tokens. */
  lemma {:induction false} ServedInOrder(w: Workspace, requests: seq<Request>, maxTokens: int, k: nat)
    requires k <= |requests|
    ensures var p, paths := After(w, requests, maxTokens, k), ReadablePaths(requests[..k]);
      && |p.candidates| <= |paths| && (p.remaining > 0 ==> |p.candidates| == |paths|)
      && forall i :: 0 <= i < |p.candidates| ==> p.candidates[i].path == paths[i]
  {
    if k > 0 {
      ServedInOrder(w, requests, maxTokens, k - 1);
      assert requests[..k][..k - 1] == requests[..k - 1];
      ServeInOrder(w, After(w, requests, maxTokens, k - 1), requests[k - 1], |requests| - (k - 1), ReadablePaths(requests[..k - 1]));
    }
  }

  lemma {:induction false} ServeInOrder(w: Workspace, p: Progress, request: Request, filesLeft: nat, paths: seq<string>)
    requires |p.candidates| <= |paths| && (p.remaining > 0 ==> |p.candidates| == |paths|)
    requires forall i :: 0 <= i < |p.candidates| ==> p.candidates[i].path == paths[i]
    ensures var q, more := Serve(w, p, request, filesLeft), paths + if request.File? then [request.rel] else [];
      && |q.candidates| <= |more| && (q.remaining > 0 ==> |q.candidates| == |more|)
      && forall i :: 0 <= i < |q.candidates| ==> q.candidates[i].path == more[i]
  {
  }

  ghost predicate ServedFile(c: Candidate, rel: string) {
    c.mandatory && c.deps == [] && c.tokens >= 1 && c.path == rel && c.id == "file:" + rel
  }

  /** A request adds at most the file it asks for. */
  ghost predicate AddsFile(p: Progress, q: Progress, request: Request) {
    forall c :: c in q.candidates ==> c in p.candidates || (request.File? && ServedFile(c, request.rel))
  }

  lemma {:induction false} ServeAdds(w: Workspace, p: Progress, request: Request, filesLeft: nat)
    ensures AddsFile(p, Serve(w, p, request, filesLeft), request)
  {
  }

  lemma {:induction false} ServedInTrace(ps: seq<Progress>, requests: seq<Request>, k: nat, c: Candidate) returns (j: nat)
    requires |ps| == |requests| + 1 && ps[0].candidates == [] && k <= |requests| && c in ps[k].candidates
    requires forall i :: 0 <= i < |requests| ==> AddsFile(ps[i], ps[i + 1], requests[i])
    ensures j < k && requests[j].File? && ServedFile(c, requests[j].rel)
  {
    assert AddsFile(ps[k - 1], ps[k], requests[k - 1]);
    if c in ps[k - 1].candidates {
      j := ServedInTrace(ps, requests, k - 1, c);
    } else {
      j := k - 1;
    }
  }

  /** Every candidate was served for one of the requests. */
  lemma {:induction false} ServedAre(w: Workspace, requests: seq<Request>, maxTokens: int, k: nat, c: Candidate) returns (j: nat)
    requires k <= |requests| && c in After(w, requests, maxTokens, k).candidates
    ensures j < k && requests[j].File? && ServedFile(c, requests[j].rel)
  {
    var ps := seq(|requests| + 1, i requires 0 <= i <= |requests| => After(w, requests, maxTokens, i));
    forall i | 0 <= i < |requests| ensures AddsFile(ps[i], ps[i + 1], requests[i]) {
      ServeAdds(w, ps[i], requests[i], |requests| - i);
    }
    j := ServedInTrace(ps, requests, k, c);
  }

  lemma {:induction false} CandidatesAreExplicit(w: Workspace, requests: seq<Request>, maxTokens: int, k: nat, c: Candidate)
    requires k <= |requests| && c in After(w, requests, maxTokens, k).candidates
    ensures c.mandatory && c.deps == [] && c.tokens >= 1
    ensures exists j :: 0 <= j < k && requests[j].File? && c.id == "file:" + requests[j].rel
  {
    var j := ServedAre(w, requests, maxTokens, k, c);
  }

  /** `_explicit_path_candidates`. */
  method ExplicitPathCandidates(w: Workspace, requests: seq<Request>, maxTokens: int) returns (candidates: seq<Candidate>)
    ensures candidates == After(w, requests, maxTokens, |requests|).candidates
    ensures TotalCost(candidates) <= Max(0, maxTokens)
  {
    candidates := [];
    var remaining: nat := Max(0, maxTokens);
    var position := 0;
    while position < |requests| && remaining > 0
      invariant position <= |requests|
      invariant After(w, requests, maxTokens, position) == Progress(candidates, remaining)
    {
      assert After(w, requests, maxTokens, position + 1)
          == Serve(w, Progress(candidates, remaining), requests[position], |requests| - position);
      var fair := FairShare(remaining, |requests| - position);
      if requests[position].File? {
        var c := CandidateFor(w, requests[position].rel, fair);
        remaining := Max(0, remaining - c.tokens);
        candidates := candidates + [c];
      }
      position := position + 1;
    }
    if position < |requests| { NothingAfterEmpty(w, requests, maxTokens, position, |requests|); }
    TokensAreConserved(w, requests, maxTokens, |requests|);
  }

  lemma {:induction false} NothingAfterEmpty(w: Workspace, requests: seq<Request>, maxTokens: int, j: nat, k: nat)
    requires j <= k <= |requests| && After(w, requests, maxTokens, j).remaining == 0
    ensures After(w, requests, maxTokens, k) == After(w, requests, maxTokens, j)
  {
    if j < k {
      NothingAfterEmpty(w, requests, maxTokens, j, k - 1);
    }
  }
}
