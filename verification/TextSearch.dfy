/**
 Substring search over a stored artifact (kitt/artifacts/store.py, `search_text`).

 INLINE artifacts are searched as one text; FILE artifacts through a rolling window over a
 character stream. Case folding turns each character into a string, which for a few characters is
 longer than one. `Steady` says that no character folds to nothing, and that none of a stretch at the
 beginning of the text folds to more than one, so that offsets behind it are those of the folded text.
 */
module TextSearch {
  import opened Common

  datatype Hit = Hit(offset: nat, excerpt: string)

  datatype Stored =
    | Inline(text: string)
    | File(chunks: seq<string>)

  function Fold(fold: char -> string, s: string): string {
    if s == "" then "" else Fold(fold, s[..|s| - 1]) + fold(s[|s| - 1])
  }

  /** No character of the text folds to more or fewer than one. */
  ghost predicate Aligned(fold: char -> string, s: string) {
    forall i :: 0 <= i < |s| ==> |fold(s[i])| == 1
  }

  lemma {:induction false} FoldAligned(fold: char -> string, s: string)
    requires Aligned(fold, s)
    ensures |Fold(fold, s)| == |s| && forall i :: 0 <= i < |s| ==> Fold(fold, s)[i] == fold(s[i])[0]
  {
    if s != "" {
      FoldAligned(fold, s[..|s| - 1]);
    }
  }

  /** No character folds to nothing, and none of the first `n` to more than one. */
  ghost predicate Steady(fold: char -> string, s: string, n: int) {
    && (forall i :: 0 <= i < |s| ==> |fold(s[i])| >= 1)
    && (forall i :: 0 <= i < |s| && i < n ==> |fold(s[i])| == 1)
  }

  lemma {:induction false} FoldGrows(fold: char -> string, s: string)
    requires Steady(fold, s, 0)
    ensures |Fold(fold, s)| >= |s|
  {
    if s != "" { FoldGrows(fold, s[..|s| - 1]); }
  }

  lemma {:induction false} FoldConcat(fold: char -> string, a: string, b: string)
    ensures Fold(fold, a + b) == Fold(fold, a) + Fold(fold, b)
  {
    if b == "" {
      assert a + b == a;
    } else {
      var init, c := b[..|b| - 1], b[|b| - 1];
      FoldConcat(fold, a, init);
      assert (a + b)[..|a + b| - 1] == a + init && (a + b)[|a + b| - 1] == c;
      assert Fold(fold, a + b) == Fold(fold, a + init) + fold(c);
    }
  }

  /** The decoded text that a list of chunks spells out. */
  function Concat(chunks: seq<string>): string {
    if chunks == [] then "" else Concat(chunks[..|chunks| - 1]) + chunks[|chunks| - 1]
  }

  function TextOf(stored: Stored): string {
    match stored
    case Inline(text) => text
    case File(chunks) => Concat(chunks)
  }

  predicate OccursAt(folded: string, needle: string, i: int) {
    && 0 <= i && i + |needle| <= |folded|
    && forall k :: 0 <= k < |needle| ==> folded[i + k] == needle[k]
  }

  /** An occurrence is the needle as a slice. */
  lemma {:induction false} OccursIffSlice(folded: string, needle: string, i: nat)
    ensures OccursAt(folded, needle, i) <==> i + |needle| <= |folded| && folded[i..i + |needle|] == needle
  {
    if i + |needle| <= |folded| {
      var slice := folded[i..i + |needle|];
      assert forall k :: 0 <= k < |needle| ==> slice[k] == folded[i + k];
    }
  }

  /** Nothing occurs in `a..b`. */
  ghost predicate Absent(folded: string, needle: string, a: int, b: int) {
    forall i :: a <= i < b ==> !OccursAt(folded, needle, i)
  }

  /** Python's `str.find(needle, start)`: the lowest occurrence at or after `start`, else -1. */
  function Find(folded: string, needle: string, start: nat): (r: int)
    ensures r == -1 || start <= r
    decreases |folded| - start
  {
    if |folded| < start + |needle| then -1
    else if OccursAt(folded, needle, start) then start
    else Find(folded, needle, start + 1)
  }

  lemma {:induction false} FindIsFirst(folded: string, needle: string, start: nat)
    ensures var r := Find(folded, needle, start);
            && (r >= 0 ==> OccursAt(folded, needle, r))
            && Absent(folded, needle, start, if r < 0 then |folded| + 1 else r)
    decreases |folded| - start
  {
    if start + |needle| <= |folded| && !OccursAt(folded, needle, start) {
      FindIsFirst(folded, needle, start + 1);
      assert Absent(folded, needle, start, start + 1);
    }
  }

  /** The match at `i` with up to `context` characters on either side. */
  function Excerpt(text: string, width: nat, context: nat, i: nat): string {
    var left, right := Max(0, i - context), Min(|text|, i + width + context);
    if left <= right then text[left..right] else ""
  }

  function HitAt(text: string, width: nat, context: nat, i: nat): Hit { Hit(i, Excerpt(text, width, context, i)) }

  /** Where the search goes on after the given matches. */
  function Frontier(offsets: seq<nat>, width: nat): nat {
    if offsets == [] then 0 else offsets[|offsets| - 1] + width
  }

  /** Reference result: the first `limit` matches of the whole text, greedily from the left. */
  function Offsets(folded: string, needle: string, limit: nat): (offsets: seq<nat>)
    ensures |offsets| <= limit
  {
    if limit == 0 then []
    else
      var before := Offsets(folded, needle, limit - 1);
      var i := Find(folded, needle, Frontier(before, |needle|));
      if |before| < limit - 1 || i < 0 then before else before + [i]
  }

  /** The hits at the given offsets, each with its excerpt. */
  function Show(text: string, width: nat, context: nat, offsets: seq<nat>): (hits: seq<Hit>)
    ensures |hits| == |offsets|
  {
    if offsets == [] then []
    else Show(text, width, context, offsets[..|offsets| - 1])
         + [Hit(offsets[|offsets| - 1], Excerpt(text, width, context, offsets[|offsets| - 1]))]
  }

  function Hits(text: string, folded: string, needle: string, context: nat, limit: nat): seq<Hit> {
    Show(text, |needle|, context, Offsets(folded, needle, limit))
  }

  /** One hit for each match, in order, at its offset. */
  lemma {:induction false} HitsAreOffsets(text: string, width: nat, context: nat, offsets: seq<nat>, k: nat)
    requires k < |offsets|
    ensures Show(text, width, context, offsets)[k] == HitAt(text, width, context, offsets[k])
  {
    var init := offsets[..|offsets| - 1];
    if k < |init| { HitsAreOffsets(text, width, context, init, k); }
  }

  /** The hit shows the match at its offset with `context` characters on either side, or as many as there are. */
  ghost predicate ShowsMatch(text: string, width: nat, context: nat, hit: Hit, left: nat, right: nat) {
    && left <= hit.offset && hit.offset + width <= right <= |text| && hit.excerpt == text[left..right]
    && (left == 0 || hit.offset - left == context)
    && (right == |text| || right - (hit.offset + width) == context)
  }

  lemma {:induction false} ExcerptShows(text: string, width: nat, context: nat, at: nat) returns (left: nat, right: nat)
    requires at + width <= |text|
    ensures ShowsMatch(text, width, context, HitAt(text, width, context, at), left, right)
  {
    left := if at < context then 0 else at - context;
    right := if |text| < at + width + context then |text| else at + width + context;
  }

  /** Every hit whose match lies inside the text shows it so. */
  lemma {:induction false} HitsShowContext(text: string, folded: string, needle: string, context: nat, limit: nat, k: nat)
    returns (left: nat, right: nat)
    requires k < |Offsets(folded, needle, limit)| && Offsets(folded, needle, limit)[k] + |needle| <= |text|
    ensures |Hits(text, folded, needle, context, limit)| == |Offsets(folded, needle, limit)|
    ensures var hit := Hits(text, folded, needle, context, limit)[k];
            hit.offset == Offsets(folded, needle, limit)[k] && ShowsMatch(text, |needle|, context, hit, left, right)
  {
    var offsets := Offsets(folded, needle, limit);
    HitsAreOffsets(text, |needle|, context, offsets, k);
    left, right := ExcerptShows(text, |needle|, context, offsets[k]);
  }

  /** Position `i` lies inside one of the matches. */
  ghost predicate Covered(offsets: seq<nat>, width: nat, i: int) {
    exists k :: 0 <= k < |offsets| && offsets[k] <= i < offsets[k] + width
  }

  /** Occurrences of the needle, none overlapping another. */
  ghost predicate Disjoint(folded: string, needle: string, offsets: seq<nat>) {
    && (forall k :: 0 <= k < |offsets| ==> OccursAt(folded, needle, offsets[k]))
    && (forall j, k :: 0 <= j < k < |offsets| ==> offsets[j] + |needle| <= offsets[k])
  }

  lemma {:induction false} OffsetsAreDisjoint(folded: string, needle: string, limit: nat)
    ensures Disjoint(folded, needle, Offsets(folded, needle, limit))
  {
    if limit != 0 {
      OffsetsAreDisjoint(folded, needle, limit - 1);
      var before := Offsets(folded, needle, limit - 1);
      var i := Find(folded, needle, Frontier(before, |needle|));
      FindIsFirst(folded, needle, Frontier(before, |needle|));
      if i >= 0 { DisjointSnoc(folded, needle, before, i); }
    }
  }

  lemma {:induction false} DisjointSnoc(folded: string, needle: string, before: seq<nat>, i: nat)
    requires Disjoint(folded, needle, before)
    requires OccursAt(folded, needle, i) && Frontier(before, |needle|) <= i
    ensures Disjoint(folded, needle, before + [i])
  {
    var last := |before| - 1;
    assert forall j :: 0 <= j < last ==> before[j] + |needle| <= before[last];
  }

  /** No occurrence is missed: each one up to the last match, or to the end of the text when the
      limit was not reached, lies inside a reported match. */
  lemma {:induction false} OffsetsAreComplete(folded: string, needle: string, limit: nat, i: nat)
    requires needle != "" && OccursAt(folded, needle, i)
    requires var offsets := Offsets(folded, needle, limit);
             |offsets| < limit || i < Frontier(offsets, |needle|)
    ensures Covered(Offsets(folded, needle, limit), |needle|, i)
  {
    if limit != 0 {
      var before, offsets := Offsets(folded, needle, limit - 1), Offsets(folded, needle, limit);
      var next := Frontier(before, |needle|);
      var found := Find(folded, needle, next);
      FindIsFirst(folded, needle, next);
      if i < next || |before| < limit - 1 {
        OffsetsAreComplete(folded, needle, limit - 1, i);
        var k :| 0 <= k < |before| && before[k] <= i < before[k] + |needle|;
        assert offsets[k] == before[k];
      } else {
        assert found >= 0 && offsets[|before|] == found;
      }
    }
  }

  lemma {:induction false} NothingMore(folded: string, needle: string, done: seq<nat>, limit: nat)
    requires Offsets(folded, needle, limit) == done
    requires Find(folded, needle, Frontier(done, |needle|)) == -1
    ensures Offsets(folded, needle, limit + 1) == done
  {
  }

  /** Once nothing is left to find, a larger limit changes nothing. */
  lemma {:induction false} NothingLeft(folded: string, needle: string, done: seq<nat>, n: nat, limit: nat)
    requires n <= limit && Offsets(folded, needle, n) == done
    requires Find(folded, needle, Frontier(done, |needle|)) == -1
    ensures Offsets(folded, needle, limit) == done
  {
    if n < limit {
      NothingLeft(folded, needle, done, n, limit - 1);
      NothingMore(folded, needle, done, limit - 1);
    }
  }

  /** Starting later makes no difference when nothing occurs in between. */
  lemma {:induction false} FindSkips(folded: string, needle: string, a: nat, b: nat)
    requires a <= b && Absent(folded, needle, a, b)
    ensures Find(folded, needle, a) == Find(folded, needle, b)
    decreases b - a
  {
    if a < b {
      assert !OccursAt(folded, needle, a);
      FindSkips(folded, needle, a + 1, b);
    }
  }

  lemma {:induction false} SliceOfSlice<T>(s: seq<T>, a: nat, b: nat, i: nat, j: nat)
    requires a <= b <= |s| && i <= j <= b - a
    ensures s[a..b][i..j] == s[a + i..a + j]
  {
    var left, right := s[a..b][i..j], s[a + i..a + j];
    assert forall k :: 0 <= k < j - i ==> left[k] == right[k];
  }

  /** A window of the folded text sees exactly the occurrences that lie inside it. */
  lemma {:induction false} WindowSees(folded: string, needle: string, base: nat, end: nat, i: int)
    requires base <= end <= |folded|
    ensures OccursAt(folded[base..end], needle, i)
       <==> 0 <= i && base + i + |needle| <= end && OccursAt(folded, needle, base + i)
  {
  }

  /** Searching the window is searching the text, up to what the window can see. */
  lemma {:induction false} WindowFind(folded: string, needle: string, base: nat, end: nat, from: nat)
    requires base <= end <= |folded|
    ensures var r := Find(folded[base..end], needle, from);
            && (r >= 0 ==> Find(folded, needle, base + from) == base + r && base + r + |needle| <= end)
            && Absent(folded, needle, base + from, if r < 0 then end - |needle| + 1 else base + r)
  {
    var window := folded[base..end];
    var r := Find(window, needle, from);
    FindIsFirst(window, needle, from);
    forall i | base + from <= i < (if r >= 0 then base + r else end - |needle| + 1)
      ensures !OccursAt(folded, needle, i)
    {
      WindowSees(folded, needle, base, end, i - base);
      assert !OccursAt(window, needle, i - base);
    }
    if r >= 0 {
      WindowSees(folded, needle, base, end, r);
      FindSkips(folded, needle, base + from, base + r);
    }
  }

  lemma {:induction false} ShowSnoc(text: string, width: nat, context: nat, offsets: seq<nat>, i: nat)
    ensures Show(text, width, context, offsets + [i])
         == Show(text, width, context, offsets) + [Hit(i, Excerpt(text, width, context, i))]
  {
    assert (offsets + [i])[..|offsets|] == offsets;
  }

  lemma {:induction false} ConcatPrefix(chunks: seq<string>, k: nat)
    requires k <= |chunks|
    ensures |Concat(chunks[..k])| <= |Concat(chunks)|
    ensures Concat(chunks)[..|Concat(chunks[..k])|] == Concat(chunks[..k])
    decreases |chunks| - k
  {
    if k < |chunks| {
      ConcatPrefix(chunks, k + 1);
      assert chunks[..k + 1][..k] == chunks[..k];
    } else {
      assert chunks[..k] == chunks;
    }
  }

  /** State of the rolling window: `seen` characters of the stream were read, which fold to the first
      `end` of the folded text; no hit from `next` on starts below `frontier`, and the window reaches
      back far enough to give any later hit its left context. */
  ghost predicate WindowOk(
    text: string, folded: string, needle: string, context: nat,
    buffer: string, base: nat, seen: nat, end: nat, next: nat, frontier: nat)
  {
    && base <= seen <= |text| && seen <= end <= |folded| && (seen == |text| ==> end == |folded|)
    && buffer == text[base..seen]
    && base <= frontier && (base == 0 || base + context <= frontier)
    && Absent(folded, needle, next, frontier)
  }

  /** A hit emitted from the safe region, or at the end of the text, has its whole context inside the
      window. */
  lemma {:induction false} SafeExcerpt(
    text: string, window: string, width: nat, context: nat, base: nat, seen: nat, index: nat)
    requires base <= seen <= |text| && window == text[base..seen]
    requires base == 0 || context <= index
    requires seen == |text| || index + width + context <= seen - base
    ensures Excerpt(window, width, context, index) == Excerpt(text, width, context, base + index)
  {
    var left, right := Max(0, index - context), Min(|window|, index + width + context);
    if left <= right { SliceOfSlice(text, base, seen, left, right); }
  }

  /** The next match of the text, read off the window. */
  lemma {:induction false} NextHit(
    text: string, folded: string, needle: string, context: nat,
    buffer: string, base: nat, seen: nat, end: nat, next: nat, frontier: nat, index: nat, at: nat, hit: Hit)
    requires needle != ""
    requires WindowOk(text, folded, needle, context, buffer, base, seen, end, next, frontier)
    requires index == Find(folded[base..end], needle, Max(0, next - base)) && at == base + index
    requires seen == |text| || index + |needle| + context <= |buffer|
    requires hit == Hit(at, Excerpt(buffer, |needle|, context, index))
    ensures Find(folded, needle, next) == at
    ensures hit == HitAt(text, |needle|, context, at)
    ensures WindowOk(text, folded, needle, context, buffer, base, seen, end, at + |needle|, frontier)
  {
    NextMatch(folded, needle, base, end, next, frontier, index);
    HitShown(text, folded, needle, context, buffer, base, seen, end, next, frontier, index, at, hit);
    WindowMoves(text, folded, needle, context, buffer, base, seen, end, next, frontier, at + |needle|);
  }

  lemma {:induction false} HitShown(
    text: string, folded: string, needle: string, context: nat,
    buffer: string, base: nat, seen: nat, end: nat, next: nat, frontier: nat, index: nat, at: nat, hit: Hit)
    requires WindowOk(text, folded, needle, context, buffer, base, seen, end, next, frontier) && frontier <= at == base + index
    requires seen == |text| || index + |needle| + context <= |buffer|
    requires hit == Hit(at, Excerpt(buffer, |needle|, context, index))
    ensures hit == HitAt(text, |needle|, context, at)
  {
    SafeExcerpt(text, buffer, |needle|, context, base, seen, index);
  }

  lemma {:induction false} WindowMoves(
    text: string, folded: string, needle: string, context: nat,
    buffer: string, base: nat, seen: nat, end: nat, next: nat, frontier: nat, next': nat)
    requires WindowOk(text, folded, needle, context, buffer, base, seen, end, next, frontier)
    requires Absent(folded, needle, next', frontier)
    ensures WindowOk(text, folded, needle, context, buffer, base, seen, end, next', frontier)
  {
  }

  lemma {:induction false} NextMatch(
    folded: string, needle: string, base: nat, seen: nat, next: nat, frontier: nat, index: nat)
    requires base <= seen <= |folded| && base <= frontier && Absent(folded, needle, next, frontier)
    requires index == Find(folded[base..seen], needle, Max(0, next - base))
    ensures Find(folded, needle, next) == base + index && base + index + |needle| <= seen
    ensures frontier <= base + index
    ensures Absent(folded, needle, base + index + |needle|, frontier)
  {
    var from := base + Max(0, next - base);
    WindowFind(folded, needle, base, seen, from - base);
    FindSkips(folded, needle, next, from);
    FindIsFirst(folded, needle, next);
  }

  /** Between the last match and the window's first hit, or its end, the text has none either. */
  lemma {:induction false} WindowMiss(folded: string, needle: string, base: nat, seen: nat, next: nat, frontier: nat, r: int)
    requires base <= seen <= |folded| && base <= frontier && Absent(folded, needle, next, frontier)
    requires r == Find(folded[base..seen], needle, Max(0, next - base))
    ensures Absent(folded, needle, next, Max(frontier, if r < 0 then seen - |needle| + 1 else base + r))
  {
    var from := Max(0, next - base);
    WindowFind(folded, needle, base, seen, from);
    AbsentJoin(folded, needle, next, frontier, base + from, if r < 0 then seen - |needle| + 1 else base + r);
  }

  lemma {:induction false} AbsentJoin(folded: string, needle: string, a: int, b: int, c: int, d: int)
    requires Absent(folded, needle, a, b) && Absent(folded, needle, c, d) && c <= Max(a, b)
    ensures Absent(folded, needle, a, Max(b, d))
  {
  }

  lemma {:induction false} AbsentIsUnfound(folded: string, needle: string, next: nat)
    requires Absent(folded, needle, next, |folded| - |needle| + 1)
    ensures Find(folded, needle, next) == -1
  {
    FindIsFirst(folded, needle, next);
  }

  /** When the window has no hit below `safeEnd`, neither has the text. */
  lemma {:induction false} LastHit(
    text: string, folded: string, needle: string, context: nat,
    buffer: string, base: nat, seen: nat, end: nat, next: nat, frontier: nat, safeEnd: nat, eof: bool)
    requires needle != ""
    requires WindowOk(text, folded, needle, context, buffer, base, seen, end, next, frontier)
    requires var r := Find(folded[base..end], needle, Max(0, next - base));
             r < 0 || (!eof && safeEnd <= r)
    requires eof ==> seen == |text|
    requires !eof ==> safeEnd == Max(0, |buffer| - (context + |needle|))
    ensures !eof ==> Absent(folded, needle, next, Max(frontier, base + safeEnd))
    ensures eof ==> Find(folded, needle, next) == -1
  {
    var r := Find(folded[base..end], needle, Max(0, next - base));
    WindowMiss(folded, needle, base, end, next, frontier, r);
    if eof { AbsentIsUnfound(folded, needle, next); }
  }

  /** What every emission keeps: the hits so far are the first matches of the text. */
  ghost predicate Progress(
    text: string, folded: string, needle: string, context: nat, hits: seq<Hit>, done: seq<nat>, next: nat)
  {
    && hits == Show(text, |needle|, context, done)
    && done == Offsets(folded, needle, |done|)
    && next == Frontier(done, |needle|)
  }

  lemma {:induction false} ProgressEmits(
    text: string, folded: string, needle: string, context: nat,
    hits: seq<Hit>, done: seq<nat>, next: nat, at: nat, hit: Hit)
    requires Progress(text, folded, needle, context, hits, done, next)
    requires Find(folded, needle, next) == at
    requires hit == HitAt(text, |needle|, context, at)
    ensures Progress(text, folded, needle, context, hits + [hit], done + [at], at + |needle|)
  {
    ShowSnoc(text, |needle|, context, done, at);
  }

  /** With the limit reached or nothing left, the hits are the reference result. */
  lemma {:induction false} ProgressEnds(
    text: string, folded: string, needle: string, context: nat, limit: nat,
    hits: seq<Hit>, done: seq<nat>, next: nat)
    requires Progress(text, folded, needle, context, hits, done, next)
    requires |hits| == limit || (|hits| < limit && Find(folded, needle, next) == -1)
    ensures hits == Hits(text, folded, needle, context, limit)
  {
    if |hits| < limit {
      NothingLeft(folded, needle, done, |done|, limit);
    }
  }

  /** INLINE branch. */
  method SearchInline(text: string, folded: string, needle: string, context: nat, limit: nat)
    returns (hits: seq<Hit>)
    requires needle != ""
    ensures hits == Hits(text, folded, needle, context, limit)
  {
    var start: nat := 0;
    ghost var done: seq<nat> := [];
    hits := [];
    while |hits| < limit
      invariant |hits| <= limit && Progress(text, folded, needle, context, hits, done, start)
      decreases limit - |hits|
    {
      var index := Find(folded, needle, start);
      if index < 0 { break; }
      var hit := Hit(index, Excerpt(text, |needle|, context, index));
      ProgressEmits(text, folded, needle, context, hits, done, start, index, hit);
      done := done + [index];
      hits := hits + [hit];
      start := index + Max(1, |needle|);
    }
    ProgressEnds(text, folded, needle, context, limit, hits, done, start);
  }

  /** What one pass over a window adds to the hits, and where the next search starts. */
  function ScanHits(folded: string, buffer: string, needle: string, context: nat, limit: nat, base: nat, safeEnd: nat,
                    eof: bool, hits: seq<Hit>, next: nat): (seq<Hit>, nat)
    decreases limit - |hits|
  {
    var index := Find(folded, needle, Max(0, next - base));
    if |hits| >= limit || index < 0 || (!eof && index >= safeEnd) then (hits, next)
    else
      ScanHits(folded, buffer, needle, context, limit, base, safeEnd, eof,
               hits + [Hit(base + index, Excerpt(buffer, |needle|, context, index))], base + index + Max(1, |needle|))
  }

  /** How far hits of a window that does not end the stream are safe, and what is trimmed after it. */
  function SafeEnd(window: string, needle: string, context: nat): nat {
    Max(0, |window| - (context + Max(1, |needle|)))
  }

  function Trim(window: string, needle: string, context: nat): (n: nat)
    ensures n <= |window|
  {
    Max(0, SafeEnd(window, needle, context) - context)
  }

  /** The pass over a window that ends the stream, or does not. */
  function Round(fold: char -> string, needle: string, context: nat, limit: nat, window: string, base: nat, eof: bool,
                 hits: seq<Hit>, next: nat): (seq<Hit>, nat)
  {
    ScanHits(Fold(fold, window), window, needle, context, limit, base,
             if eof then |window| else SafeEnd(window, needle, context), eof, hits, next)
  }

  /** The hits of the rolling window over the chunks still to read, for any folding. */
  function FileHits(fold: char -> string, needle: string, context: nat, limit: nat, chunks: seq<string>,
                    buffer: string, base: nat, next: nat, hits: seq<Hit>): seq<Hit>
    decreases |chunks|
  {
    if |hits| >= limit then hits
    else if chunks == [] then Round(fold, needle, context, limit, buffer, base, true, hits, next).0
    else
      var window := buffer + chunks[0];
      var r, trim := Round(fold, needle, context, limit, window, base, false, hits, next), Trim(window, needle, context);
      FileHits(fold, needle, context, limit, chunks[1..], window[trim..], base + trim, r.1, r.0)
  }

  lemma {:induction false} ScanGoesOn(
    folded: string, buffer: string, needle: string, context: nat, limit: nat, base: nat, safeEnd: nat,
    eof: bool, hits: seq<Hit>, next: nat, index: nat, hits': seq<Hit>, next': nat)
    requires |hits| < limit && needle != "" && index == Find(folded, needle, Max(0, next - base)) && (eof || index < safeEnd)
    requires hits' == hits + [Hit(base + index, Excerpt(buffer, |needle|, context, index))]
    requires next' == base + index + |needle|
    ensures ScanHits(folded, buffer, needle, context, limit, base, safeEnd, eof, hits, next)
         == ScanHits(folded, buffer, needle, context, limit, base, safeEnd, eof, hits', next')
  {
  }

  lemma {:induction false} ReadThenScan(
    fold: char -> string, needle: string, context: nat, limit: nat, chunks: seq<string>, buffer: string, base: nat,
    next: nat, hits: seq<Hit>, window: string, found: seq<Hit>, after: nat, rest: seq<string>, buffer': string, base': nat)
    requires |hits| < limit && chunks != [] && window == buffer + chunks[0]
    requires (found, after) == Round(fold, needle, context, limit, window, base, false, hits, next)
    requires rest == chunks[1..] && buffer' == window[Trim(window, needle, context)..]
    requires base' == base + Trim(window, needle, context)
    ensures FileHits(fold, needle, context, limit, chunks, buffer, base, next, hits)
         == FileHits(fold, needle, context, limit, rest, buffer', base', after, found)
  {
  }

  /** One pass over the window. */
  method ScanWindow(
    needle: string, context: nat, limit: nat, buffer: string, foldedBuffer: string, base: nat, safeEnd: nat, eof: bool,
    hits0: seq<Hit>, next0: nat)
    returns (hits: seq<Hit>, next: nat)
    ensures (hits, next) == ScanHits(foldedBuffer, buffer, needle, context, limit, base, safeEnd, eof, hits0, next0)
  {
    hits, next := hits0, next0;
    var localStart := Max(0, next - base);
    while |hits| < limit
      invariant localStart == Max(0, next - base)
      invariant ScanHits(foldedBuffer, buffer, needle, context, limit, base, safeEnd, eof, hits, next)
             == ScanHits(foldedBuffer, buffer, needle, context, limit, base, safeEnd, eof, hits0, next0)
      decreases limit - |hits|
    {
      var index := Find(foldedBuffer, needle, localStart);
      if index < 0 || (!eof && index >= safeEnd) { break; }
      hits := hits + [Hit(base + index, Excerpt(buffer, |needle|, context, index))];
      localStart := index + Max(1, |needle|);
      next := base + localStart;
    }
  }

  lemma {:induction false} ScanStays(
    folded: string, buffer: string, needle: string, context: nat, limit: nat, base: nat, safeEnd: nat,
    eof: bool, hits: seq<Hit>, next: nat)
    requires var index := Find(folded, needle, Max(0, next - base));
             |hits| >= limit || index < 0 || (!eof && index >= safeEnd)
    ensures ScanHits(folded, buffer, needle, context, limit, base, safeEnd, eof, hits, next) == (hits, next)
  {
  }

  lemma {:induction false} HitEmitted(
    text: string, folded: string, needle: string, context: nat, buffer: string, window: string, base: nat,
    hits: seq<Hit>, next: nat, done: seq<nat>, seen: nat, end: nat, frontier: nat, index: nat, at: nat, hit: Hit)
    requires needle != "" && at == base + index
    requires WindowOk(text, folded, needle, context, buffer, base, seen, end, next, frontier) && window == folded[base..end]
    requires Progress(text, folded, needle, context, hits, done, next)
    requires index == Find(window, needle, Max(0, next - base))
    requires seen == |text| || index + |needle| + context <= |buffer|
    requires hit == Hit(at, Excerpt(buffer, |needle|, context, index))
    ensures WindowOk(text, folded, needle, context, buffer, base, seen, end, at + |needle|, frontier)
    ensures Progress(text, folded, needle, context, hits + [hit], done + [at], at + |needle|)
  {
    NextHit(text, folded, needle, context, buffer, base, seen, end, next, frontier, index, at, hit);
    ProgressEmits(text, folded, needle, context, hits, done, next, at, hit);
  }

  /** The hits and the position after a pass: the first matches of the text, none missed before the
      safe end. */
  ghost predicate Scanned(
    text: string, folded: string, needle: string, context: nat, limit: nat, buffer: string, base: nat, safeEnd: nat,
    eof: bool, hits: seq<Hit>, next: nat, done: seq<nat>, seen: nat, end: nat, frontier: nat)
  {
    && |hits| <= limit && Progress(text, folded, needle, context, hits, done, next)
    && WindowOk(text, folded, needle, context, buffer, base, seen, end, next, frontier)
    && (!eof && |hits| < limit ==> Absent(folded, needle, next, Max(frontier, base + safeEnd)))
    && (eof && |hits| < limit ==> Find(folded, needle, next) == -1)
  }

  /** On a window that folds to a stretch of the folded text at the same offset, a pass emits exactly the next hits of the
      text, with their full excerpts, and misses none that starts before the safe end. */
  lemma {:induction false} ScanEmitsNextHits(
    text: string, folded: string, needle: string, context: nat, limit: nat, buffer: string, window: string, base: nat,
    safeEnd: nat, eof: bool, hits: seq<Hit>, next: nat, done: seq<nat>, seen: nat, end: nat, frontier: nat,
    found: seq<Hit>, after: nat)
    returns (done': seq<nat>)
    requires needle != "" && |hits| <= limit
    requires WindowOk(text, folded, needle, context, buffer, base, seen, end, next, frontier) && window == folded[base..end]
    requires Progress(text, folded, needle, context, hits, done, next)
    requires eof ==> seen == |text|
    requires !eof ==> safeEnd == Max(0, |buffer| - (context + |needle|))
    requires ScanHits(window, buffer, needle, context, limit, base, safeEnd, eof, hits, next) == (found, after)
    ensures Scanned(text, folded, needle, context, limit, buffer, base, safeEnd, eof, found, after, done', seen, end, frontier)
    decreases limit - |hits|
  {
    var index := Find(window, needle, Max(0, next - base));
    if |hits| >= limit || index < 0 || (!eof && index >= safeEnd) {
      done' := done;
      ScanStays(window, buffer, needle, context, limit, base, safeEnd, eof, hits, next);
      if |hits| < limit {
        LastHit(text, folded, needle, context, buffer, base, seen, end, next, frontier, safeEnd, eof);
      }
    } else {
      var at: nat, hit := base + index, Hit(base + index, Excerpt(buffer, |needle|, context, index));
      var hits', next' := hits + [hit], at + |needle|;
      HitEmitted(text, folded, needle, context, buffer, window, base, hits, next, done, seen, end, frontier, index, at, hit);
      ScanGoesOn(window, buffer, needle, context, limit, base, safeEnd, eof, hits, next, index, hits', next');
      done' := ScanEmitsNextHits(text, folded, needle, context, limit, buffer, window, base, safeEnd, eof,
                                 hits', next', done + [at], seen, end, frontier, found, after);
    }
  }

  /** Reading one more chunk extends the window by exactly that chunk. */
  lemma {:induction false} ReadChunk(chunks: seq<string>, k: nat, base: nat)
    requires k < |chunks|
    requires base <= |Concat(chunks[..k])|
    ensures var seen, seen' := |Concat(chunks[..k])|, |Concat(chunks[..k + 1])|;
            && seen' == seen + |chunks[k]| <= |Concat(chunks)|
            && Concat(chunks)[base..seen'] == Concat(chunks)[base..seen] + chunks[k]
  {
    ConcatPrefix(chunks, k);
    ConcatPrefix(chunks, k + 1);
    assert chunks[..k + 1][..k] == chunks[..k];
    var text, seen, seen' := Concat(chunks), |Concat(chunks[..k])|, |Concat(chunks[..k + 1])|;
    assert text[..seen'] == text[..seen] + chunks[k];
    assert text[base..seen'] == text[..seen'][base..];
  }

  /** The stream hands out pieces of at most the requested size, and "" only at the end. */
  ghost predicate ReadsAtMost(chunks: seq<string>, size: nat) {
    forall k :: 0 <= k < |chunks| ==> 0 < |chunks[k]| <= size
  }

  /** Trimming keeps the window usable for every later hit. */
  lemma {:induction false} TrimKeepsWindow(
    text: string, folded: string, needle: string, context: nat, buffer: string, base: nat, safeEnd: nat, seen: nat,
    end: nat, next: nat, frontier: nat)
    requires WindowOk(text, folded, needle, context, buffer, base, seen, end, next, frontier)
    requires safeEnd <= |buffer| && base + safeEnd <= frontier
    ensures var trim := Max(0, safeEnd - context);
            WindowOk(text, folded, needle, context, buffer[trim..], base + trim, seen, end, next, frontier)
  {
    SliceOfSlice(text, base, seen, Max(0, safeEnd - context), |buffer|);
  }

  /** A window behind a steady stretch folds to the folded text at the same offset. */
  lemma {:induction false} FoldSlice(fold: char -> string, text: string, base: nat, seen: nat) returns (end: nat)
    requires base <= seen <= |text| && Steady(fold, text, base)
    ensures seen <= end <= |Fold(fold, text)| && (seen == |text| ==> end == |Fold(fold, text)|)
    ensures Fold(fold, text[base..seen]) == Fold(fold, text)[base..end]
  {
    var before, window, after := text[..base], text[base..seen], text[seen..];
    assert text == before + window + after;
    FoldConcat(fold, before + window, after);
    FoldConcat(fold, before, window);
    FoldAligned(fold, before);
    FoldGrows(fold, window);
    end := base + |Fold(fold, window)|;
    assert seen == |text| ==> after == "";
  }

  /** FILE branch: a window over the stream, trimmed after each read. `peak` is the largest window
      ever held. */
  method SearchFile(chunks: seq<string>, needle: string, fold: char -> string, context: nat, limit: nat,
                    ghost chunkChars: nat)
    returns (hits: seq<Hit>, ghost peak: nat)
    requires needle != "" && ReadsAtMost(chunks, chunkChars)
    ensures hits == FileHits(fold, needle, context, limit, chunks, "", 0, 0, [])
    ensures peak <= chunkChars + 2 * context + |needle|
  {
    var keep := context + Max(1, |needle|);
    var buffer, base: nat, next: nat := "", 0, 0;
    var eof, read := false, 0;
    hits, peak := [], 0;
    ghost var whole := FileHits(fold, needle, context, limit, chunks, "", 0, 0, []);
    assert chunks[0..] == chunks;
    while !eof && |hits| < limit
      invariant read <= |chunks| && (!eof ==> |buffer| <= 2 * context + |needle|)
      invariant !eof ==> FileHits(fold, needle, context, limit, chunks[read..], buffer, base, next, hits) == whole
      invariant eof ==> hits == whole
      invariant peak <= chunkChars + 2 * context + |needle|
      decreases |chunks| - read, !eof
    {
      if read == |chunks| {
        assert chunks[read..] == [];
        eof := true;
        peak := Max(peak, |buffer|);
        ghost var hits0, next0 := hits, next;
        hits, next := ScanWindow(needle, context, limit, buffer, Fold(fold, buffer), base, |buffer|, true, hits, next);
        assert (hits, next) == Round(fold, needle, context, limit, buffer, base, true, hits0, next0);
      } else {
        peak := Max(peak, |buffer| + |chunks[read]|);
        buffer, base, hits, next := ReadAndScan(fold, needle, context, limit, chunks, read, buffer, base, next, hits);
        read := read + 1;
      }
    }
  }

  /** A round of the loop that reads a chunk: the window grows by it, is searched, and is trimmed to
      two contexts and the needle. */
  method ReadAndScan(fold: char -> string, needle: string, context: nat, limit: nat, chunks: seq<string>, read: nat,
                     buffer0: string, base0: nat, next0: nat, hits0: seq<Hit>)
    returns (buffer: string, base: nat, hits: seq<Hit>, next: nat)
    requires needle != "" && read < |chunks| && |hits0| < limit
    ensures FileHits(fold, needle, context, limit, chunks[read..], buffer0, base0, next0, hits0)
         == FileHits(fold, needle, context, limit, chunks[read + 1..], buffer, base, next, hits)
    ensures |buffer| <= 2 * context + |needle|
  {
    var window := buffer0 + chunks[read];
    var safeEnd := Max(0, |window| - (context + Max(1, |needle|)));
    hits, next := ScanWindow(needle, context, limit, window, Fold(fold, window), base0, safeEnd, false, hits0, next0);
    assert chunks[read..][0] == chunks[read] && chunks[read..][1..] == chunks[read + 1..];
    var trim := Max(0, safeEnd - context);
    buffer, base := window[trim..], base0 + trim;
    ReadThenScan(fold, needle, context, limit, chunks[read..], buffer0, base0, next0, hits0, window, hits, next,
                 chunks[read + 1..], buffer, base);
  }

  /** How much of the text can be trimmed away before its end is searched. */
  function Trimmable(text: string, needle: string, context: nat): int { |text| - 2 * context - |needle| }

  /** What the window knows after `k` chunks of the text. */
  ghost predicate FileState(
    text: string, folded: string, needle: string, context: nat, limit: nat, chunks: seq<string>, k: nat,
    buffer: string, base: nat, end: nat, next: nat, hits: seq<Hit>, done: seq<nat>, frontier: nat)
    requires k <= |chunks|
  {
    && |hits| <= limit && (base == 0 || base + 2 * context + |needle| <= |Concat(chunks[..k])|)
    && WindowOk(text, folded, needle, context, buffer, base, |Concat(chunks[..k])|, end, next, frontier)
    && Progress(text, folded, needle, context, hits, done, next)
  }

  lemma {:induction false} SteadyUpTo(fold: char -> string, text: string, n: int, m: nat)
    requires Steady(fold, text, n) && (m == 0 || m <= n)
    ensures Steady(fold, text, m)
  {
  }

  lemma {:induction false} WindowGrows(
    text: string, folded: string, needle: string, context: nat, chunks: seq<string>, k: nat,
    buffer: string, base: nat, end: nat, end': nat, next: nat, frontier: nat)
    requires text == Concat(chunks) && k < |chunks|
    requires WindowOk(text, folded, needle, context, buffer, base, |Concat(chunks[..k])|, end, next, frontier)
    requires |Concat(chunks[..k + 1])| <= end' <= |folded| && (|Concat(chunks[..k + 1])| == |text| ==> end' == |folded|)
    ensures WindowOk(text, folded, needle, context, buffer + chunks[k], base, |Concat(chunks[..k + 1])|, end', next, frontier)
  {
    ReadChunk(chunks, k, base);
  }

  /** One chunk: the window gives the next hits of the text and stays usable. */
  lemma {:induction false} FileStep(
    text: string, folded: string, fold: char -> string, needle: string, context: nat, limit: nat, chunks: seq<string>, k: nat,
    buffer: string, base: nat, end: nat, next: nat, hits: seq<Hit>, done: seq<nat>, frontier: nat, window: string,
    found: seq<Hit>, after: nat)
    returns (done': seq<nat>, end': nat)
    requires text == Concat(chunks) && folded == Fold(fold, text) && Steady(fold, text, Trimmable(text, needle, context))
    requires needle != "" && k < |chunks| && |hits| < limit
    requires FileState(text, folded, needle, context, limit, chunks, k, buffer, base, end, next, hits, done, frontier)
    requires window == buffer + chunks[k]
    requires (found, after) == Round(fold, needle, context, limit, window, base, false, hits, next)
    ensures |found| <= limit && Progress(text, folded, needle, context, found, done', after)
    ensures |found| < limit ==>
              FileState(text, folded, needle, context, limit, chunks, k + 1, window[Trim(window, needle, context)..],
                        base + Trim(window, needle, context), end', after, found, done',
                        Max(frontier, base + SafeEnd(window, needle, context)))
  {
    var seen, safeEnd := |Concat(chunks[..k + 1])|, SafeEnd(window, needle, context);
    ReadChunk(chunks, k, base);
    SteadyUpTo(fold, text, Trimmable(text, needle, context), base);
    end' := FoldSlice(fold, text, base, seen);
    WindowGrows(text, folded, needle, context, chunks, k, buffer, base, end, end', next, frontier);
    done' := ScanEmitsNextHits(text, folded, needle, context, limit, window, Fold(fold, window), base, safeEnd, false,
                               hits, next, done, seen, end', frontier, found, after);
    if |found| < limit {
      TrimmedState(text, folded, needle, context, limit, chunks, k, window, base, seen, end', after, found, done', frontier);
    }
  }

  lemma {:induction false} TrimmedState(
    text: string, folded: string, needle: string, context: nat, limit: nat, chunks: seq<string>, k: nat,
    window: string, base: nat, seen: nat, end: nat, after: nat, found: seq<Hit>, done: seq<nat>, frontier: nat)
    requires k < |chunks| && seen == |Concat(chunks[..k + 1])| && |found| < limit && needle != ""
    requires base == 0 || base + 2 * context + |needle| <= seen
    requires Scanned(text, folded, needle, context, limit, window, base, SafeEnd(window, needle, context), false,
                     found, after, done, seen, end, frontier)
    ensures FileState(text, folded, needle, context, limit, chunks, k + 1, window[Trim(window, needle, context)..],
                      base + Trim(window, needle, context), end, after, found, done,
                      Max(frontier, base + SafeEnd(window, needle, context)))
  {
    var safeEnd := SafeEnd(window, needle, context);
    TrimKeepsWindow(text, folded, needle, context, window, base, safeEnd, seen, end, after, Max(frontier, base + safeEnd));
  }

  lemma {:induction false} FileEnd(
    text: string, folded: string, fold: char -> string, needle: string, context: nat, limit: nat, chunks: seq<string>,
    buffer: string, base: nat, end: nat, next: nat, hits: seq<Hit>, done: seq<nat>, frontier: nat)
    requires text == Concat(chunks) && folded == Fold(fold, text) && Steady(fold, text, Trimmable(text, needle, context))
    requires needle != "" && |hits| < limit
    requires FileState(text, folded, needle, context, limit, chunks, |chunks|, buffer, base, end, next, hits, done, frontier)
    ensures FileHits(fold, needle, context, limit, [], buffer, base, next, hits) == Hits(text, folded, needle, context, limit)
  {
    assert chunks[..|chunks|] == chunks;
    SteadyUpTo(fold, text, Trimmable(text, needle, context), base);
    var end' := FoldSlice(fold, text, base, |text|);
    var r := Round(fold, needle, context, limit, buffer, base, true, hits, next);
    var done' := ScanEmitsNextHits(text, folded, needle, context, limit, buffer, Fold(fold, buffer), base, |buffer|, true,
                                   hits, next, done, |text|, end', frontier, r.0, r.1);
    ProgressEnds(text, folded, needle, context, limit, r.0, done', r.1);
  }

  /** For every way of cutting a text whose trimmable part folds one to one, the rolling window gives the
      hits of the whole text. */
  lemma {:induction false} FileHitsAreHits(
    text: string, folded: string, fold: char -> string, needle: string, context: nat, limit: nat, chunks: seq<string>, k: nat,
    buffer: string, base: nat, end: nat, next: nat, hits: seq<Hit>, done: seq<nat>, frontier: nat)
    requires text == Concat(chunks) && folded == Fold(fold, text) && Steady(fold, text, Trimmable(text, needle, context))
    requires needle != "" && k <= |chunks|
    requires FileState(text, folded, needle, context, limit, chunks, k, buffer, base, end, next, hits, done, frontier)
    ensures FileHits(fold, needle, context, limit, chunks[k..], buffer, base, next, hits)
         == Hits(text, folded, needle, context, limit)
    decreases |chunks| - k
  {
    if |hits| >= limit {
      ProgressEnds(text, folded, needle, context, limit, hits, done, next);
      LimitReached(fold, needle, context, limit, chunks[k..], buffer, base, next, hits);
    } else if k == |chunks| {
      assert chunks[k..] == [];
      FileEnd(text, folded, fold, needle, context, limit, chunks, buffer, base, end, next, hits, done, frontier);
    } else {
      var buffer', base', end', next', hits', done', frontier' :=
        FileRound(text, folded, fold, needle, context, limit, chunks, k, buffer, base, end, next, hits, done, frontier);
      if |hits'| < limit {
        FileHitsAreHits(text, folded, fold, needle, context, limit, chunks, k + 1, buffer', base', end', next', hits', done', frontier');
      } else {
        ProgressEnds(text, folded, needle, context, limit, hits', done', next');
        LimitReached(fold, needle, context, limit, chunks[k + 1..], buffer', base', next', hits');
      }
    }
  }

  /** A round of the search, from one state to the next. */
  lemma {:induction false} FileRound(
    text: string, folded: string, fold: char -> string, needle: string, context: nat, limit: nat, chunks: seq<string>, k: nat,
    buffer: string, base: nat, end: nat, next: nat, hits: seq<Hit>, done: seq<nat>, frontier: nat)
    returns (buffer': string, base': nat, end': nat, next': nat, hits': seq<Hit>, done': seq<nat>, frontier': nat)
    requires text == Concat(chunks) && folded == Fold(fold, text) && Steady(fold, text, Trimmable(text, needle, context))
    requires needle != "" && k < |chunks| && |hits| < limit
    requires FileState(text, folded, needle, context, limit, chunks, k, buffer, base, end, next, hits, done, frontier)
    ensures FileHits(fold, needle, context, limit, chunks[k..], buffer, base, next, hits)
         == FileHits(fold, needle, context, limit, chunks[k + 1..], buffer', base', next', hits')
    ensures |hits'| <= limit && Progress(text, folded, needle, context, hits', done', next')
    ensures |hits'| < limit ==>
              FileState(text, folded, needle, context, limit, chunks, k + 1, buffer', base', end', next', hits', done', frontier')
  {
    var window := buffer + chunks[k];
    var r := Round(fold, needle, context, limit, window, base, false, hits, next);
    hits', next' := r.0, r.1;
    done', end' := FileStep(text, folded, fold, needle, context, limit, chunks, k, buffer, base, end, next, hits, done, frontier,
                            window, hits', next');
    assert chunks[k..][0] == chunks[k] && chunks[k..][1..] == chunks[k + 1..];
    var trim := Trim(window, needle, context);
    buffer', base', frontier' := window[trim..], base + trim, Max(frontier, base + SafeEnd(window, needle, context));
    ReadThenScan(fold, needle, context, limit, chunks[k..], buffer, base, next, hits, window, hits', next',
                 chunks[k + 1..], buffer', base');
  }

  lemma {:induction false} LimitReached(
    fold: char -> string, needle: string, context: nat, limit: nat, chunks: seq<string>, buffer: string, base: nat,
    next: nat, hits: seq<Hit>)
    requires |hits| >= limit
    ensures FileHits(fold, needle, context, limit, chunks, buffer, base, next, hits) == hits
  {
  }

  /** The FILE search of a text is the search of the whole text when no character folds to nothing and
      those that can be trimmed away fold to one each, however the text is cut. */
  lemma {:induction false} FileSearchIsTextSearch(
    fold: char -> string, needle: string, context: nat, limit: nat, chunks: seq<string>)
    requires needle != "" && Steady(fold, Concat(chunks), Trimmable(Concat(chunks), needle, context))
    ensures FileHits(fold, needle, context, limit, chunks, "", 0, 0, [])
         == Hits(Concat(chunks), Fold(fold, Concat(chunks)), needle, context, limit)
  {
    var text := Concat(chunks);
    FoldGrows(fold, text);
    assert chunks[0..] == chunks && chunks[..0] == [];
    var end := FoldSlice(fold, text, 0, 0);
    FileHitsAreHits(text, Fold(fold, text), fold, needle, context, limit, chunks, 0, "", 0, end, 0, [], [], 0);
  }

  const CHUNK_FLOOR := 4096

  function ClampLimit(limit: int): nat { Max(1, Min(limit, 100)) }

  function ClampContext(context: int): nat { Max(40, Min(context, 2000)) }

  function ChunkChars(context: nat, width: nat): nat {
    Max(CHUNK_FLOOR, Max(context * 4, width * 4))
  }

  /** The limit is brought between 1 and 100, the context between 40 and 2000 characters. */
  lemma {:induction false} BoundsAreClamped(limit: int, context: int)
    ensures Nearest(limit, 1, 100, ClampLimit(limit)) && Nearest(context, 40, 2000, ClampContext(context))
  {
  }

  /** Both storage kinds give the hits of the whole text (a FILE search when what can be
      trimmed away folds one to one), and a FILE search holds a bounded window. */
  method SearchText(stored: Stored, needle: string, fold: char -> string, limit: int, context: int)
    returns (hits: seq<Hit>, ghost peak: nat)
    requires stored.File? ==> ReadsAtMost(stored.chunks, ChunkChars(ClampContext(context), |needle|))
    ensures needle == "" ==> hits == []
    ensures needle != "" && stored.File? ==>
              hits == FileHits(fold, needle, ClampContext(context), ClampLimit(limit), stored.chunks, "", 0, 0, [])
    ensures needle != ""
            && (stored.Inline? || Steady(fold, TextOf(stored), Trimmable(TextOf(stored), needle, ClampContext(context)))) ==>
              hits == Hits(TextOf(stored), Fold(fold, TextOf(stored)), needle,
                           ClampContext(context), ClampLimit(limit))
    ensures peak <= ChunkChars(ClampContext(context), |needle|) + 2 * ClampContext(context) + |needle|
  {
    hits, peak := [], 0;
    if needle == "" { return; }
    var boundedLimit, boundedContext := ClampLimit(limit), ClampContext(context);
    match stored {
      case Inline(text) =>
        hits := SearchInline(text, Fold(fold, text), needle, boundedContext, boundedLimit);
      case File(chunks) =>
        if Steady(fold, Concat(chunks), Trimmable(Concat(chunks), needle, boundedContext)) {
          FileSearchIsTextSearch(fold, needle, boundedContext, boundedLimit, chunks);
        }
        hits, peak := SearchFile(chunks, needle, fold, boundedContext, boundedLimit,
                                 ChunkChars(boundedContext, |needle|));
    }
  }

  // ---------------------------------------------------------------- one text, stored either way

  /** What reading a file in text mode makes of line ends: "\r\n" and a lone "\r" become "\n". */
  function Newlines(s: string): string {
    if s == "" then ""
    else if s[0] != '\r' then [s[0]] + Newlines(s[1..])
    else if |s| > 1 && s[1] == '\n' then "\n" + Newlines(s[2..])
    else "\n" + Newlines(s[1..])
  }

  lemma {:induction false} NewlinesKeepsIff(s: string)
    ensures Newlines(s) == s <==> '\r' !in s
    decreases |s|
  {
    if s != "" {
      NewlinesKeepsIff(s[1..]);
      assert s == [s[0]] + s[1..];
      if s[0] == '\r' {
        assert Newlines(s)[0] != s[0];
      } else {
        assert Newlines(s)[1..] == Newlines(s[1..]);
      }
    }
  }

  /** The size of the piece that is rewritten first. */
  function FirstPiece(s: string): nat { if |s| > 1 && s[0] == '\r' && s[1] == '\n' then 2 else 1 }

  lemma {:induction false} NewlinesHead(s: string, c: string)
    requires s != "" && c == [if s[0] == '\r' then '\n' else s[0]]
    ensures Newlines(s) == c + Newlines(s[FirstPiece(s)..])
  {
  }

  lemma {:induction false} HeadOfWhole(a: string, b: string)
    requires a != "" && (b != "" ==> !(a[|a| - 1] == '\r' && b[0] == '\n'))
    ensures (a + b)[0] == a[0] && FirstPiece(a + b) == FirstPiece(a) && (a + b)[FirstPiece(a)..] == a[FirstPiece(a)..] + b
  {
  }

  /** Texts are rewritten piece by piece, unless a line end is torn apart. */
  lemma {:induction false} NewlinesConcat(a: string, b: string)
    requires a != "" && b != "" ==> !(a[|a| - 1] == '\r' && b[0] == '\n')
    ensures Newlines(a + b) == Newlines(a) + Newlines(b)
    decreases |a|
  {
    if a == "" {
      assert a + b == b;
    } else {
      var c, rest := [if a[0] == '\r' then '\n' else a[0]], a[FirstPiece(a)..];
      HeadOfWhole(a, b);
      calc {
        Newlines(a + b);
        { NewlinesHead(a + b, c); }
        c + Newlines(rest + b);
        { NewlinesConcat(rest, b); }
        c + (Newlines(rest) + Newlines(b));
        (c + Newlines(rest)) + Newlines(b);
        { NewlinesHead(a, c); }
        Newlines(a) + Newlines(b);
      }
    }
  }

  /** Both kinds of line end become a newline; any other text stays. */
  lemma {:induction false} LineEndsBecomeNewlines(s: string)
    ensures Newlines("\r\n") == "\n" && Newlines("\r") == "\n" && ('\r' !in s ==> Newlines(s) == s)
  {
    assert "\r\n"[2..] == "" && "\r"[1..] == "";
    NewlinesKeepsIff(s);
  }

  /** `stored` holds the decoded text `raw`; a file is read back in text mode. */
  ghost predicate Holds(stored: Stored, raw: string) {
    TextOf(stored) == if stored.Inline? then raw else Newlines(raw)
  }

  /** INLINE and FILE storage of a text show the search the same text if and only if it has no
      carriage return. */
  lemma {:induction false} KindsAgreeIff(raw: string, inline: Stored, file: Stored)
    requires inline.Inline? && file.File? && Holds(inline, raw) && Holds(file, raw)
    ensures TextOf(inline) == TextOf(file) <==> '\r' !in raw
  {
    NewlinesKeepsIff(raw);
  }

  lemma {:induction false} OneMatch(text: string, needle: string, context: nat, at: nat)
    requires needle != "" && OccursAt(text, needle, at) && Absent(text, needle, 0, at)
    ensures var hits := Hits(text, text, needle, context, 1); |hits| == 1 && hits[0].offset == at
  {
    FindIsFirst(text, needle, 0);
    assert Offsets(text, needle, 0) == [];
    assert Offsets(text, needle, 1) == [at];
  }

  lemma {:induction false} NewlinesExample()
    ensures Newlines("a\r\nb") == "a\nb"
  {
    var raw := "a\r\nb";
    assert raw[1..] == "\r\nb" && raw[1..][2..] == "b" && "b"[1..] == "";
    assert Newlines("b") == "b";
    assert Newlines(raw[1..]) == "\nb";
  }

  /** A carriage return before a match moves the match. */
  lemma {:induction false} CarriageReturnMovesMatch(context: nat)
    ensures var raw := "a\r\nb";
            Hits(raw, raw, "b", context, 1) != Hits(Newlines(raw), Newlines(raw), "b", context, 1)
  {
    NewlinesExample();
    OneMatch("a\r\nb", "b", context, 3);
    OneMatch("a\nb", "b", context, 2);
  }

  // ---------------------------------------------------------------- folding that moves offsets

  function Filler(n: nat): string { seq(n, i => 'a') }

  lemma {:induction false} FoldSnoc(fold: char -> string, s: string, c: char)
    ensures Fold(fold, s + [c]) == Fold(fold, s) + fold(c)
  {
    assert (s + [c])[..|s + [c]| - 1] == s;
  }

  lemma {:induction false} FoldOne(fold: char -> string, c: char)
    ensures Fold(fold, [c]) == fold(c)
  {
    FoldSnoc(fold, "", c);
    assert "" + [c] == [c];
  }

  lemma {:induction false} FoldFiller(fold: char -> string, n: nat)
    requires fold('a') == "a"
    ensures Fold(fold, Filler(n)) == Filler(n)
  {
    var s := Filler(n);
    if n == 0 {
      assert s == "";
    } else {
      FoldFiller(fold, n - 1);
      FoldSnoc(fold, Filler(n - 1), 'a');
      assert s == Filler(n - 1) + ['a'];
    }
  }

  lemma {:induction false} FirstX(s: string, from: nat, at: nat)
    requires from <= at < |s| && s[at] == 'x' && forall j :: from <= j < at ==> s[j] != 'x'
    ensures Find(s, "x", from) == at
  {
    FindIsFirst(s, "x", from);
    OccursX(s, at);
    forall j | from <= j < at ensures !OccursAt(s, "x", j) { OccursX(s, j); }
  }

  lemma {:induction false} OccursX(s: string, j: nat)
    ensures OccursAt(s, "x", j) <==> j < |s| && s[j] == 'x'
  {
    if OccursAt(s, "x", j) { assert s[j + 0] == "x"[0]; }
  }

  /** The text: a character that folds to two, `n` others, and the match. */
  function Expanding(c: char, n: nat): string { [c] + Filler(n) + "x" }

  lemma {:induction false} FoldExpanding(fold: char -> string, c: char, n: nat)
    requires fold(c) == "ss" && fold('a') == "a" && fold('x') == "x"
    ensures Fold(fold, Expanding(c, n)) == "ss" + Filler(n) + "x"
    ensures Find("ss" + Filler(n) + "x", "x", 0) == n + 2
  {
    FoldConcat(fold, [c] + Filler(n), "x");
    FoldConcat(fold, [c], Filler(n));
    FoldOne(fold, c);
    FoldOne(fold, 'x');
    FoldFiller(fold, n);
    FirstX("ss" + Filler(n) + "x", 0, n + 2);
  }

  lemma {:induction false} ExpandingTrimmed(c: char, n: nat, window: string)
    requires n >= 80 && window == Expanding(c, n)
    ensures SafeEnd(window, "x", 40) == n - 39 && Trim(window, "x", 40) == n - 79 && window[n - 79..] == Filler(80) + "x"
  {
    assert |window| == n + 2;
  }

  lemma {:induction false} ExpandingRound(fold: char -> string, c: char, n: nat, window: string)
    requires fold(c) == "ss" && fold('a') == "a" && fold('x') == "x" && n >= 80 && window == Expanding(c, n)
    ensures Round(fold, "x", 40, 1, window, 0, false, [], 0) == ([], 0)
  {
    FoldExpanding(fold, c, n);
    ExpandingTrimmed(c, n, window);
    ScanStays(Fold(fold, window), window, "x", 40, 1, 0, n - 39, false, [], 0);
  }

  /** The one read brings the match, beyond the safe end, and is trimmed past the expanding character. */
  lemma {:induction false} ExpandingRead(fold: char -> string, c: char, n: nat, window: string)
    requires fold(c) == "ss" && fold('a') == "a" && fold('x') == "x" && n >= 80 && window == Expanding(c, n)
    ensures FileHits(fold, "x", 40, 1, [window], "", 0, 0, []) == FileHits(fold, "x", 40, 1, [], Filler(80) + "x", n - 79, 0, [])
  {
    ExpandingRound(fold, c, n, window);
    ExpandingTrimmed(c, n, window);
    assert "" + window == window && [window][1..] == [];
    ReadThenScan(fold, "x", 40, 1, [window], "", 0, 0, [], window, [], 0, [], Filler(80) + "x", n - 79);
  }

  /** At the end of the stream the match is reported at its place in the text. */
  lemma {:induction false} MatchReported(fold: char -> string, n: nat)
    requires fold('a') == "a" && fold('x') == "x" && n >= 80
    ensures var hits := FileHits(fold, "x", 40, 1, [], Filler(80) + "x", n - 79, 0, []);
            |hits| == 1 && hits[0].offset == n + 1
  {
    var window := Filler(80) + "x";
    FoldConcat(fold, Filler(80), "x");
    FoldOne(fold, 'x');
    FoldFiller(fold, 80);
    FirstX(window, 0, 80);
    var hit := Hit(n + 1, Excerpt(window, 1, 40, 80));
    ScanGoesOn(window, window, "x", 40, 1, n - 79, 81, true, [], 0, 80, [hit], n + 2);
    ScanStays(window, window, "x", 40, 1, n - 79, 81, true, [hit], n + 2);
    assert Round(fold, "x", 40, 1, window, n - 79, true, [], 0) == ([hit], n + 2);
  }

  /** A text in one read, with a character that folds to two at its beginning: the FILE search reports
      the same as the INLINE search if and only if that character cannot be trimmed away, and otherwise
      one offset less. Up to 4094 characters in between this is the read the code makes. */
  lemma {:induction false} ExpandingFoldMovesMatchIff(fold: char -> string, c: char, n: nat)
    requires fold(c) == "ss" && fold('a') == "a" && fold('x') == "x"
    ensures var text := Expanding(c, n);
            var file, inline := FileHits(fold, "x", 40, 1, [text], "", 0, 0, []), Hits(text, Fold(fold, text), "x", 40, 1);
            && Concat([text]) == text && (n <= 4094 ==> ReadsAtMost([text], ChunkChars(40, 1)))
            && (file == inline <==> Trimmable(text, "x", 40) <= 0)
            && (file != inline ==> |file| == |inline| == 1 && file[0].offset == n + 1 && inline[0].offset == n + 2)
  {
    var text := Expanding(c, n);
    OneChunk(text);
    InlineMatch(fold, c, n);
    if n >= 80 {
      ExpandingRead(fold, c, n, text);
      MatchReported(fold, n);
    } else {
      ExpandingSteady(fold, c, n);
      FileSearchIsTextSearch(fold, "x", 40, 1, [text]);
    }
  }

  lemma {:induction false} ExpandingSteady(fold: char -> string, c: char, n: nat)
    requires fold(c) == "ss" && fold('a') == "a" && fold('x') == "x" && n < 80
    ensures Steady(fold, Expanding(c, n), Trimmable(Expanding(c, n), "x", 40))
  {
  }

  lemma {:induction false} OneChunk(text: string)
    ensures Concat([text]) == text
  {
    assert [text][..0] == [] && Concat([]) == "";
  }

  lemma {:induction false} InlineMatch(fold: char -> string, c: char, n: nat)
    requires fold(c) == "ss" && fold('a') == "a" && fold('x') == "x"
    ensures var text := Expanding(c, n);
            var hits := Hits(text, Fold(fold, text), "x", 40, 1);
            |hits| == 1 && hits[0].offset == n + 2
  {
    FoldExpanding(fold, c, n);
    OneX(Expanding(c, n), "ss" + Filler(n) + "x", n + 2);
  }

  lemma {:induction false} OneX(text: string, folded: string, at: nat)
    requires at < |folded| && folded[at] == 'x' && forall j :: 0 <= j < at ==> folded[j] != 'x'
    ensures var hits := Hits(text, folded, "x", 40, 1); |hits| == 1 && hits[0].offset == at
  {
    FirstX(folded, 0, at);
    assert Offsets(folded, "x", 0) == [];
    assert Offsets(folded, "x", 1) == [at];
  }
}
