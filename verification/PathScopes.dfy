/**
 Path scopes of child agents (kitt/children/context.py).

 A path is its list of components after resolution; a scope is a list of paths and covers
 everything below them. Scopes handed out are relative to the workspace root, `.` being `[]`.
 */
module PathScopes {
  import opened Common
  import opened Orders

  type Component = s: string | s != "" && '/' !in s witness "a"
  type Path = seq<Component>

  datatype Narrowing =
    | Escapes                    // ValueError
    | Refused                    // PermissionError
    | Scope(paths: seq<Path>)

  /** `_contains`: `child.relative_to(parent)` succeeds. */
  predicate Contains(parent: Path, child: Path) { parent <= child }

  predicate Covers(scope: seq<Path>, p: Path) {
    exists i :: 0 <= i < |scope| && Contains(scope[i], p)
  }

  ghost predicate SameCover(a: seq<Path>, b: seq<Path>) {
    forall p: Path :: Covers(a, p) <==> Covers(b, p)
  }

  function PathStr(p: Path): string {
    if p == [] then "" else "/" + p[0] + PathStr(p[1..])
  }

  /** The sort key `(len(path.parts), str(path))`. */
  predicate PathLt(a: Path, b: Path) {
    |a| < |b| || (|a| == |b| && StrLt(PathStr(a), PathStr(b)))
  }

  /** The string of a path is its components, each after a slash. */
  lemma {:induction false} PathStrSplits(a: Path, b: Path)
    ensures PathStr(a + b) == PathStr(a) + PathStr(b)
    ensures |b| == 1 ==> PathStr(b) == "/" + b[0]
  {
    if |b| == 1 { assert b[1..] == [] && PathStr([]) == ""; }
    if a == [] {
      assert a + b == b;
    } else {
      PathStrSplits(a[1..], b);
      assert (a + b)[1..] == a[1..] + b;
    }
  }

  lemma {:induction false} ComponentEnds(p: Path)
    requires p != []
    ensures var k := 1 + |p[0]|; |PathStr(p)| == k || (|PathStr(p)| > k && PathStr(p)[k] == '/')
    ensures forall k :: 1 <= k <= |p[0]| ==> k < |PathStr(p)| && PathStr(p)[k] != '/'
  {
    assert forall k :: 1 <= k <= |p[0]| ==> PathStr(p)[k] == p[0][k - 1];
  }

  lemma {:induction false} PathStrInjective(a: Path, b: Path)
    requires PathStr(a) == PathStr(b)
    ensures a == b
  {
    if a != [] && b != [] {
      ComponentEnds(a);
      ComponentEnds(b);
      assert |a[0]| == |b[0]|;
      var n := |a[0]|;
      assert a[0] == PathStr(a)[1..1 + n] && b[0] == PathStr(b)[1..1 + n];
      assert PathStr(a[1..]) == PathStr(a)[1 + n..] && PathStr(b[1..]) == PathStr(b)[1 + n..];
      PathStrInjective(a[1..], b[1..]);
      assert a == [a[0]] + a[1..] && b == [b[0]] + b[1..];
    }
  }

  lemma {:induction false} PathLtStrictTotal()
    ensures StrictTotal(PathLt)
  {
    StrLtStrictTotal();
    forall a: Path, b: Path ensures PathLt(a, b) || a == b || PathLt(b, a) {
      if PathStr(a) == PathStr(b) { PathStrInjective(a, b); }
    }
    forall a: Path, b: Path, c: Path | PathLt(a, b) && PathLt(b, c) ensures PathLt(a, c) {
      assert StrLt(PathStr(a), PathStr(b)) && StrLt(PathStr(b), PathStr(c)) ==> StrLt(PathStr(a), PathStr(c));
    }
  }

  /** Increasing, and no path lies below another. */
  ghost predicate Canonical(scope: seq<Path>) {
    && Ordered(scope, PathLt)
    && forall i, j :: 0 <= i < |scope| && 0 <= j < |scope| && Contains(scope[i], scope[j]) ==> i == j
  }

  /** A canonical scope lists shallower paths first, and paths of one depth in the order of their strings. */
  lemma {:induction false} CanonicalOrder(scope: seq<Path>, i: nat, j: nat)
    requires Canonical(scope) && i < j < |scope|
    ensures |scope[i]| <= |scope[j]|
    ensures |scope[i]| == |scope[j]| ==> exists k: nat :: Precedes(PathStr(scope[i]), PathStr(scope[j]), k)
  {
    StrLtIsLexicographic(PathStr(scope[i]), PathStr(scope[j]));
  }

  /** `_dedupe_scopes`: a canonical scope that covers the same paths. */
  method DedupeScopes(paths: seq<Path>) returns (result: seq<Path>)
    ensures Canonical(result) && SameCover(result, paths)
    ensures forall s :: s in result ==> s in paths
  {
    var unique := SortUnique(paths, PathLt);
    PathLtStrictTotal();
    SortUniqueOrdered(paths, PathLt);
    result := [];
    for i := 0 to |unique|
      invariant forall s :: s in result ==> s in unique[..i]
      invariant Canonical(result)
      invariant forall k :: 0 <= k < i ==> Covers(result, unique[k])
    {
      var path := unique[i];
      if !Covers(result, path) {
        forall k | 0 <= k < |result| ensures PathLt(result[k], path) && !Contains(path, result[k]) {
          assert result[k] in unique[..i];
          LaterIsNotAbove(result[k], path);
        }
        CoversMore(result, path);
        result := result + [path];
      }
    }
    SameCoverBothWays(result, paths, unique);
  }

  lemma {:induction false} SameCoverBothWays(result: seq<Path>, paths: seq<Path>, unique: seq<Path>)
    requires forall s :: s in result ==> s in paths
    requires forall s :: s in unique <==> s in paths
    requires forall k :: 0 <= k < |unique| ==> Covers(result, unique[k])
    ensures SameCover(result, paths)
  {
    forall s | s in result ensures Covers(paths, s) { SelfCovered(paths, s); }
    forall s | s in paths ensures Covers(result, s) {
      assert s in unique;
    }
    forall p ensures Covers(result, p) <==> Covers(paths, p) {
      if Covers(result, p) { CoverTransfers(result, paths, p); }
      if Covers(paths, p) { CoverTransfers(paths, result, p); }
    }
  }

  lemma {:induction false} CoversMore(scope: seq<Path>, extra: Path)
    ensures Covers(scope + [extra], extra)
    ensures forall p :: Covers(scope, p) ==> Covers(scope + [extra], p)
  {
    assert Contains((scope + [extra])[|scope|], extra);
    forall p | Covers(scope, p) ensures Covers(scope + [extra], p) {
      var i :| 0 <= i < |scope| && Contains(scope[i], p);
      assert Contains((scope + [extra])[i], p);
    }
  }

  lemma {:induction false} SelfCovered(scope: seq<Path>, s: Path)
    requires s in scope
    ensures Covers(scope, s)
  {
    var i :| 0 <= i < |scope| && scope[i] == s;
    assert Contains(scope[i], s);
  }

  /** A scope whose every path is covered by another covers no more than that one. */
  lemma {:induction false} CoverTransfers(a: seq<Path>, b: seq<Path>, p: Path)
    requires forall s :: s in a ==> Covers(b, s)
    requires Covers(a, p)
    ensures Covers(b, p)
  {
    var i :| 0 <= i < |a| && Contains(a[i], p);
    assert Covers(b, a[i]);
    var j :| 0 <= j < |b| && Contains(b[j], a[i]);
    assert Contains(b[j], p);
  }

  lemma {:induction false} ContainsAntisymmetric(a: Path, b: Path)
    requires Contains(a, b) && Contains(b, a)
    ensures a == b
  {
  }

  lemma {:induction false} PrefixOfShorter(a: Path, b: Path)
    requires |a| <= |b| && Contains(b, a)
    ensures a == b
  {
  }

  lemma {:induction false} LaterIsNotAbove(a: Path, b: Path)
    requires PathLt(a, b)
    ensures !Contains(b, a)
  {
    StrLtIrreflexive(PathStr(a));
    if Contains(b, a) { PrefixOfShorter(a, b); }
  }

  lemma {:induction false} CanonicalMember(a: seq<Path>, b: seq<Path>, s: Path)
    requires Canonical(a) && SameCover(a, b) && s in a
    ensures s in b
  {
    var i :| 0 <= i < |a| && a[i] == s;
    assert Contains(a[i], s) && Covers(b, s);
    var j :| 0 <= j < |b| && Contains(b[j], s);
    assert Contains(b[j], b[j]) && Covers(b, b[j]);
    assert Covers(a, b[j]);
    var k :| 0 <= k < |a| && Contains(a[k], b[j]);
    assert Contains(a[k], a[i]) && k == i;
    ContainsAntisymmetric(s, b[j]);
  }

  /** The canonical form is unique: scopes that cover the same paths have the identical list. */
  lemma {:induction false} CanonicalFormIsUnique(a: seq<Path>, b: seq<Path>)
    requires Canonical(a) && Canonical(b) && SameCover(a, b)
    ensures a == b
  {
    PathLtStrictTotal();
    forall s ensures s in a <==> s in b {
      if s in a { CanonicalMember(a, b, s); }
      if s in b { CanonicalMember(b, a, s); }
    }
    OrderedUnique(a, b, PathLt);
  }

  predicate AllUnder(root: Path, paths: seq<Path>) {
    forall s :: s in paths ==> Contains(root, s)
  }

  /** `path.relative_to(root)` for each path of a scope. */
  function RelativeTo(root: Path, paths: seq<Path>): (rel: seq<Path>)
    requires AllUnder(root, paths)
    ensures |rel| == |paths| && forall i :: 0 <= i < |paths| ==> root + rel[i] == paths[i]
  {
    if paths == [] then []
    else
      assert paths[0] in paths;
      [paths[0][|root|..]] + RelativeTo(root, paths[1..])
  }

  /** `p` lies in a scope given relative to the root. */
  predicate Inside(root: Path, scope: seq<Path>, p: Path) {
    exists i :: 0 <= i < |scope| && Contains(root + scope[i], p)
  }

  /** `(root / path).resolve()` for each path of a relative scope. */
  function Absolute(root: Path, scope: seq<Path>): (abs: seq<Path>)
    ensures |abs| == |scope| && forall i :: 0 <= i < |scope| ==> abs[i] == root + scope[i]
  {
    if scope == [] then [] else [root + scope[0]] + Absolute(root, scope[1..])
  }

  /** The scope, given relative to the root, is in canonical form. */
  ghost predicate CanonicalUnder(root: Path, scope: seq<Path>) { Canonical(Absolute(root, scope)) }

  lemma {:induction false} RelativeIsCanonical(root: Path, paths: seq<Path>)
    requires AllUnder(root, paths) && Canonical(paths)
    ensures CanonicalUnder(root, RelativeTo(root, paths))
  {
    assert Absolute(root, RelativeTo(root, paths)) == paths;
  }

  /** Canonical scopes with the same paths inside are the identical list. */
  lemma {:induction false} SameInsideSameList(root: Path, a: seq<Path>, b: seq<Path>)
    requires CanonicalUnder(root, a) && CanonicalUnder(root, b)
    requires forall p :: Inside(root, a, p) <==> Inside(root, b, p)
    ensures a == b
  {
    AbsoluteCover(root, a);
    AbsoluteCover(root, b);
    CanonicalFormIsUnique(Absolute(root, a), Absolute(root, b));
    forall i | 0 <= i < |a| ensures a[i] == b[i] {
      assert Absolute(root, a)[i] == root + a[i] && Absolute(root, b)[i] == root + b[i];
      assert (root + a[i])[|root|..] == a[i] && (root + b[i])[|root|..] == b[i];
    }
  }

  /** `validate_child_paths`, on resolved targets: the scope relative to the root, or nothing when a
      target escapes. */
  method ValidateChildPaths(root: Path, targets: seq<Path>) returns (r: Option<seq<Path>>)
    ensures r.Some? <==> AllUnder(root, targets)
    ensures r.Some? ==> forall p :: Inside(root, r.value, p) <==> Covers(targets, p)
    ensures r.Some? ==> (r.value == [] <==> targets == [])
    ensures r.Some? ==> CanonicalUnder(root, r.value)
  {
    var output: seq<Path> := [];
    for i := 0 to |targets|
      invariant output == targets[..i] && AllUnder(root, output)
    {
      if !Contains(root, targets[i]) { return None; }
      output := output + [targets[i]];
    }
    var reduced := DedupeScopes(output);
    var rel := RelativeTo(root, reduced);
    InsideRelative(root, reduced);
    NonEmptyCover(reduced, targets);
    RelativeIsCanonical(root, reduced);
    return Some(rel);
  }

  lemma {:induction false} InsideRelative(root: Path, paths: seq<Path>)
    requires AllUnder(root, paths)
    ensures forall p :: Inside(root, RelativeTo(root, paths), p) <==> Covers(paths, p)
  {
    var rel := RelativeTo(root, paths);
    forall p ensures Inside(root, rel, p) <==> Covers(paths, p) {
      assert forall i :: 0 <= i < |paths| ==> (Contains(root + rel[i], p) <==> Contains(paths[i], p));
    }
  }

  lemma {:induction false} NonEmptyCover(a: seq<Path>, b: seq<Path>)
    requires SameCover(a, b)
    ensures a == [] <==> b == []
  {
    assert a != [] ==> Contains(a[0], a[0]) && Covers(a, a[0]);
    assert b != [] ==> Contains(b[0], b[0]) && Covers(b, b[0]);
  }

  lemma {:induction false} AbsoluteCover(root: Path, scope: seq<Path>)
    ensures forall p :: Covers(Absolute(root, scope), p) <==> Inside(root, scope, p)
    ensures AllUnder(root, Absolute(root, scope))
  {
  }

  /** What `narrow_child_paths` promises. An empty scope means the whole workspace to whoever
      receives it (see `Permits`). */
  ghost predicate NarrowSpec(root: Path, requested: seq<Path>, parents: Option<seq<Path>>, r: Narrowing) {
    (r.Scope? ==> CanonicalUnder(root, r.paths)) &&
    if !AllUnder(root, requested) || (parents.Some? && !AllUnder(root, parents.value)) then r.Escapes?
    else if parents.None? then
      && r.Scope?
      && (r.paths == [] <==> requested == [] || root in requested)
      && (r.paths != [] ==> forall p :: Inside(root, r.paths, p) <==> Covers(requested, p))
    else if requested == [] then
      r.Scope? && forall p :: Inside(root, r.paths, p) <==> Covers(parents.value, p)
    else
      && (r.Refused? <==> forall p :: !(Covers(requested, p) && Covers(parents.value, p)))
      && (!r.Refused? ==>
            && r.Scope? && r.paths != []
            && forall p :: Inside(root, r.paths, p) <==> Covers(requested, p) && Covers(parents.value, p))
  }

  /** Every pair of one parent and one request, comparable ones giving the deeper path. */
  method Intersections(parents: seq<Path>, requested: seq<Path>) returns (result: seq<Path>)
    ensures forall p :: Covers(result, p) <==> Covers(parents, p) && Covers(requested, p)
    ensures forall s :: s in result ==> s in parents || s in requested
  {
    result := [];
    for i := 0 to |parents|
      invariant forall p :: Covers(result, p) <==> Covers(parents[..i], p) && Covers(requested, p)
      invariant forall s :: s in result ==> s in parents || s in requested
    {
      var row := Meets(parents[i], requested);
      forall p ensures Covers(result + row, p) <==> Covers(parents[..i + 1], p) && Covers(requested, p) {
        CoversConcat(result, row, p);
        CoversConcat(parents[..i], [parents[i]], p);
        assert parents[..i + 1] == parents[..i] + [parents[i]];
        assert Covers([parents[i]], p) <==> Contains([parents[i]][0], p);
      }
      result := result + row;
    }
    assert parents[..|parents|] == parents;
  }

  lemma {:induction false} CoversConcat(a: seq<Path>, b: seq<Path>, p: Path)
    ensures Covers(a + b, p) <==> Covers(a, p) || Covers(b, p)
  {
    var all := a + b;
    if Covers(a, p) {
      var i :| 0 <= i < |a| && Contains(a[i], p);
      assert Contains(all[i], p);
    }
    if Covers(b, p) {
      var i :| 0 <= i < |b| && Contains(b[i], p);
      assert Contains(all[|a| + i], p);
    }
  }

  method Meets(parent: Path, requested: seq<Path>) returns (row: seq<Path>)
    ensures forall p :: Covers(row, p) <==> Contains(parent, p) && Covers(requested, p)
    ensures forall s :: s in row ==> s == parent || s in requested
  {
    row := [];
    for j := 0 to |requested|
      invariant forall p :: Covers(row, p) <==> Contains(parent, p) && Covers(requested[..j], p)
      invariant forall s :: s in row ==> s == parent || s in requested
    {
      var request := requested[j];
      var meet := if Contains(parent, request) then [request] else if Contains(request, parent) then [parent] else [];
      forall p ensures Covers(row + meet, p) <==> Contains(parent, p) && Covers(requested[..j + 1], p) {
        CoversConcat(row, meet, p);
        CoversConcat(requested[..j], [request], p);
        assert requested[..j + 1] == requested[..j] + [request];
        MeetCovers(parent, request, p);
      }
      row := row + meet;
    }
    assert requested[..|requested|] == requested;
  }

  /** Two cones meet in the deeper one when comparable, and not at all otherwise. */
  lemma {:induction false} MeetCovers(parent: Path, request: Path, p: Path)
    ensures var meet := if Contains(parent, request) then [request]
                        else if Contains(request, parent) then [parent] else [];
            Covers(meet, p) <==> Contains(parent, p) && Contains(request, p)
    ensures Covers([request], p) <==> Contains(request, p)
  {
    assert Covers([request], p) <==> Contains([request][0], p);
    assert Covers([parent], p) <==> Contains([parent][0], p);
    if Contains(parent, p) && Contains(request, p) {
      assert parent == p[..|parent|] && request == p[..|request|];
      assert |parent| <= |request| ==> Contains(parent, request);
      assert |request| <= |parent| ==> Contains(request, parent);
    }
  }

  method NarrowChildPaths(root: Path, requested: seq<Path>, parents: Option<seq<Path>>) returns (r: Narrowing)
    ensures NarrowSpec(root, requested, parents, r)
  {
    var checked := ValidateChildPaths(root, requested);
    if checked.None? { return Escapes; }
    var wanted := Absolute(root, checked.value);
    AbsoluteCover(root, checked.value);
    assert forall p :: Covers(wanted, p) <==> Covers(requested, p);
    if parents.None? {
      r := NarrowUnbounded(root, requested, wanted);
      return;
    }
    var checkedParents := ValidateChildPaths(root, parents.value);
    if checkedParents.None? { return Escapes; }
    var bounds := Absolute(root, checkedParents.value);
    AbsoluteCover(root, checkedParents.value);
    assert forall p :: Covers(bounds, p) <==> Covers(parents.value, p);
    if wanted == [] {
      var inherited := DedupeScopes(bounds);
      InsideRelative(root, inherited);
      RelativeIsCanonical(root, inherited);
      return Scope(RelativeTo(root, inherited));
    }
    var common := Intersections(bounds, wanted);
    common := DedupeScopes(common);
    if common == [] {
      assert forall p :: !Covers(common, p);
      return Refused;
    }
    assert Contains(common[0], common[0]) && Covers(common, common[0]);
    InsideRelative(root, common);
    RelativeIsCanonical(root, common);
    return Scope(RelativeTo(root, common));
  }

  lemma {:induction false} RootMember(root: Path, a: seq<Path>, b: seq<Path>)
    requires SameCover(a, b) && AllUnder(root, b) && root in a
    ensures root in b
  {
    var i :| 0 <= i < |a| && a[i] == root;
    assert Contains(a[i], root) && Covers(b, root);
    var j :| 0 <= j < |b| && Contains(b[j], root);
    assert b[j] in b;
    ContainsAntisymmetric(b[j], root);
  }

  /** The branch without a parent scope: asking for the root is asking for the whole workspace. */
  method NarrowUnbounded(root: Path, ghost requested: seq<Path>, wanted: seq<Path>) returns (r: Narrowing)
    requires AllUnder(root, requested) && AllUnder(root, wanted) && SameCover(wanted, requested)
    ensures NarrowSpec(root, requested, None, r)
  {
    var reduced := DedupeScopes(wanted);
    NonEmptyCover(reduced, requested);
    if root in reduced { RootMember(root, reduced, requested); }
    if root in requested { RootMember(root, requested, reduced); }
    if root in reduced { return Scope([]); }
    InsideRelative(root, reduced);
    RelativeIsCanonical(root, reduced);
    return Scope(RelativeTo(root, reduced));
  }

  lemma {:induction false} SameCoverSameRoot(root: Path, a: seq<Path>, b: seq<Path>)
    requires SameCover(a, b)
    ensures AllUnder(root, a) <==> AllUnder(root, b)
  {
    if AllUnder(root, b) { UnderThroughCover(root, a, b); }
    if AllUnder(root, a) { UnderThroughCover(root, b, a); }
  }

  lemma {:induction false} UnderThroughCover(root: Path, a: seq<Path>, b: seq<Path>)
    requires SameCover(a, b) && AllUnder(root, b)
    ensures AllUnder(root, a)
  {
    forall s | s in a ensures Contains(root, s) {
      SelfCovered(a, s);
      assert Covers(b, s);
      var j :| 0 <= j < |b| && Contains(b[j], s);
      assert b[j] in b && Contains(root, b[j]);
    }
  }

  /** Requests and parents that cover the same paths. */
  ghost predicate SameScopes(requested: seq<Path>, parents: Option<seq<Path>>, requested': seq<Path>, parents': Option<seq<Path>>) {
    && SameCover(requested, requested')
    && (parents.None? <==> parents'.None?) && (parents.Some? ==> SameCover(parents.value, parents'.value))
  }

  /** Narrowing depends only on what is covered: equal covers give the identical answer, list and all. */
  lemma {:induction false} EqualCoversNarrowAlike(
    root: Path, requested: seq<Path>, parents: Option<seq<Path>>, requested': seq<Path>, parents': Option<seq<Path>>,
    r: Narrowing, r': Narrowing)
    requires SameScopes(requested, parents, requested', parents')
    requires NarrowSpec(root, requested, parents, r) && NarrowSpec(root, requested', parents', r')
    ensures r == r'
  {
    SameCoverSameRoot(root, requested, requested');
    if parents.Some? { SameCoverSameRoot(root, parents.value, parents'.value); }
    NonEmptyCover(requested, requested');
    if AllUnder(root, requested) && (parents.Some? ==> AllUnder(root, parents.value)) {
      if root in requested { RootMember(root, requested, requested'); }
      if root in requested' { RootMember(root, requested', requested); }
      if r.Scope? && r'.Scope? {
        SameInside(root, requested, parents, requested', parents', r, r');
        SameInsideSameList(root, r.paths, r'.paths);
      }
    }
  }

  lemma {:induction false} SameInside(
    root: Path, requested: seq<Path>, parents: Option<seq<Path>>, requested': seq<Path>, parents': Option<seq<Path>>,
    r: Narrowing, r': Narrowing)
    requires SameScopes(requested, parents, requested', parents') && r.Scope? && r'.Scope?
    requires AllUnder(root, requested) && AllUnder(root, requested')
    requires parents.Some? ==> AllUnder(root, parents.value) && AllUnder(root, parents'.value)
    requires requested == [] <==> requested' == []
    requires root in requested <==> root in requested'
    requires NarrowSpec(root, requested, parents, r) && NarrowSpec(root, requested', parents', r')
    ensures forall p :: Inside(root, r.paths, p) <==> Inside(root, r'.paths, p)
  {
  }

  /** What a scope lets its holder touch: everything in the workspace when it is empty. */
  ghost predicate Permits(root: Path, scope: seq<Path>, p: Path) {
    Contains(root, p) && (scope == [] || Inside(root, scope, p))
  }

  /** A stored scope used as the parent of the next level: empty stands for no restriction. */
  function AsParent(root: Path, scope: seq<Path>): Option<seq<Path>> {
    if scope == [] then None else Some(Absolute(root, scope))
  }

  lemma {:induction false} InsideOwnScope(root: Path, scope: seq<Path>)
    ensures scope != [] ==> Inside(root, scope, root + scope[0])
  {
    if scope != [] { assert Contains(root + scope[0], root + scope[0]); }
  }

  /** One narrowing gives the child exactly what it asked for within what its parent may touch; an
      empty request inherits, and a request that shares nothing with the parent is refused. */
  lemma {:induction false} NarrowingIsIntersection(root: Path, parent: seq<Path>, requested: seq<Path>, r: Narrowing, p: Path)
    requires AllUnder(root, requested) && NarrowSpec(root, requested, AsParent(root, parent), r)
    requires Contains(root, p)
    ensures r.Refused? ==> requested != [] && !(Covers(requested, p) && Permits(root, parent, p))
    ensures r.Scope? ==> (Permits(root, r.paths, p)
                     <==> Permits(root, parent, p) && (requested == [] || Covers(requested, p)))
    ensures !r.Escapes?
  {
    AbsoluteCover(root, parent);
    if parent == [] && r.Scope? && r.paths == [] && requested != [] {
      var j :| 0 <= j < |requested| && requested[j] == root;
      assert Contains(requested[j], p);
    }
    InsideOwnScope(root, parent);
  }

  /** A parent scope that is present but empty is the one that does not bind: an empty request then
      yields the empty scope, which permits the whole workspace. */
  lemma {:induction false} ParentBindsIffNonEmpty(root: Path, parents: seq<Path>, requested: seq<Path>, r: Narrowing)
    requires AllUnder(root, requested) && AllUnder(root, parents)
    requires NarrowSpec(root, requested, Some(parents), r) && r.Scope?
    ensures (forall p :: Permits(root, r.paths, p) ==> Covers(parents, p)) <==> parents != []
  {
    if parents == [] {
      InsideOwnScope(root, r.paths);
      assert Permits(root, r.paths, root) && !Covers(parents, root);
    } else if requested == [] {
      SelfCovered(parents, parents[0]);
      assert Inside(root, r.paths, parents[0]);
    }
  }

  /** A chain of agents, each level narrowed from the one before. */
  ghost predicate Chain(root: Path, scopes: seq<seq<Path>>, requests: seq<seq<Path>>) {
    && |scopes| == |requests| + 1
    && forall i :: 0 <= i < |requests| ==>
         && AllUnder(root, requests[i])
         && NarrowSpec(root, requests[i], AsParent(root, scopes[i]), Scope(scopes[i + 1]))
  }

  /** No level of a chain may touch a path that an ancestor may not. */
  lemma {:induction false} ChainNeverWidens(
    root: Path, scopes: seq<seq<Path>>, requests: seq<seq<Path>>, ancestor: nat, level: nat, p: Path)
    requires Chain(root, scopes, requests) && ancestor <= level < |scopes|
    requires Permits(root, scopes[level], p)
    ensures Permits(root, scopes[ancestor], p)
    decreases level
  {
    if ancestor < level {
      NarrowingIsIntersection(root, scopes[level - 1], requests[level - 1], Scope(scopes[level - 1 + 1]), p);
      ChainNeverWidens(root, scopes, requests, ancestor, level - 1, p);
    }
  }
}
