/** Sorting as Python's `sorted` does it, and the code-point order of strings. */
module Orders {

  ghost predicate TotalPreorder<T(!new)>(le: (T, T) -> bool) {
    && (forall x, y :: le(x, y) || le(y, x))
    && (forall x, y, z :: le(x, y) && le(y, z) ==> le(x, z))
  }

  ghost predicate StrictTotal<T(!new)>(lt: (T, T) -> bool) {
    && (forall x :: !lt(x, x))
    && (forall x, y :: lt(x, y) || x == y || lt(y, x))
    && (forall x, y, z :: lt(x, y) && lt(y, z) ==> lt(x, z))
  }

  ghost predicate Ordered<T>(xs: seq<T>, rel: (T, T) -> bool) {
    forall i, j :: 0 <= i < j < |xs| ==> rel(xs[i], xs[j])
  }

  /** Stable insertion: before the first element that is not smaller. */
  function Insert<T>(x: T, xs: seq<T>, le: (T, T) -> bool): (r: seq<T>)
    ensures multiset(r) == multiset(xs) + multiset{x}
  {
    if xs == [] || le(x, xs[0]) then [x] + xs
    else
      assert xs == [xs[0]] + xs[1..];
      [xs[0]] + Insert(x, xs[1..], le)
  }

  function Sort<T>(xs: seq<T>, le: (T, T) -> bool): (r: seq<T>)
    ensures multiset(r) == multiset(xs)
  {
    if xs == [] then []
    else
      assert xs == [xs[0]] + xs[1..];
      Insert(xs[0], Sort(xs[1..], le), le)
  }

  lemma {:induction false} InsertOrdered<T(!new)>(x: T, xs: seq<T>, le: (T, T) -> bool)
    requires TotalPreorder(le) && Ordered(xs, le)
    ensures Ordered(Insert(x, xs, le), le)
  {
    if xs != [] && !le(x, xs[0]) {
      var rest := Insert(x, xs[1..], le);
      InsertOrdered(x, xs[1..], le);
      forall j | 0 <= j < |rest| ensures le(xs[0], rest[j]) {
        assert rest[j] in multiset(rest);
        assert rest[j] == x || rest[j] in xs[1..];
      }
    }
  }

  lemma {:induction false} SortOrdered<T(!new)>(xs: seq<T>, le: (T, T) -> bool)
    requires TotalPreorder(le)
    ensures Ordered(Sort(xs, le), le)
  {
    if xs != [] {
      SortOrdered(xs[1..], le);
      InsertOrdered(xs[0], Sort(xs[1..], le), le);
    }
  }

  lemma {:induction false} SortMembers<T>(xs: seq<T>, le: (T, T) -> bool)
    ensures |Sort(xs, le)| == |xs|
    ensures forall x :: x in Sort(xs, le) <==> x in xs
  {
    var r := Sort(xs, le);
    assert |r| == |multiset(r)| == |multiset(xs)| == |xs|;
    forall x ensures x in r <==> x in xs {
      assert x in r <==> x in multiset(r);
      assert x in xs <==> x in multiset(xs);
    }
  }

  /** Sorting what is in order already changes nothing. */
  lemma {:induction false} SortFixpoint<T>(xs: seq<T>, le: (T, T) -> bool)
    requires Ordered(xs, le)
    ensures Sort(xs, le) == xs
  {
    if xs != [] {
      SortFixpoint(xs[1..], le);
      assert |xs| > 1 ==> le(xs[0], xs[1..][0]);
    }
  }

  /** The elements of a class, in order. */
  function Those<T>(xs: seq<T>, p: T -> bool): seq<T> {
    if xs == [] then [] else (if p(xs[0]) then [xs[0]] else []) + Those(xs[1..], p)
  }

  lemma {:induction false} ThoseCons<T>(y: T, xs: seq<T>, p: T -> bool)
    ensures Those([y] + xs, p) == (if p(y) then [y] else []) + Those(xs, p)
  {
    assert ([y] + xs)[1..] == xs;
  }

  lemma {:induction false} InsertIsStable<T(!new)>(y: T, xs: seq<T>, le: (T, T) -> bool, p: T -> bool)
    requires forall h :: !le(y, h) && p(y) ==> !p(h)
    ensures Those(Insert(y, xs, le), p) == (if p(y) then [y] else []) + Those(xs, p)
  {
    if xs == [] || le(y, xs[0]) {
      ThoseCons(y, xs, p);
    } else {
      InsertIsStable(y, xs[1..], le, p);
      ThoseCons(xs[0], Insert(y, xs[1..], le), p);
    }
  }

  function AlikeTo<T>(le: (T, T) -> bool, x: T): T -> bool { y => le(y, x) && le(x, y) }

  lemma {:induction false} OnlyOneAlike<T(!new)>(le: (T, T) -> bool, x: T, y: T)
    requires TotalPreorder(le)
    ensures forall h :: !le(y, h) && AlikeTo(le, x)(y) ==> !AlikeTo(le, x)(h)
  {
  }

  /** Sorting is stable: elements that compare equal to `x` keep their order. */
  lemma {:induction false} SortIsStable<T(!new)>(xs: seq<T>, le: (T, T) -> bool, x: T)
    requires TotalPreorder(le)
    ensures Those(Sort(xs, le), AlikeTo(le, x)) == Those(xs, AlikeTo(le, x))
  {
    if xs != [] {
      SortIsStable(xs[1..], le, x);
      OnlyOneAlike(le, x, xs[0]);
      InsertIsStable(xs[0], Sort(xs[1..], le), le, AlikeTo(le, x));
    }
  }

  /** The first `m` are in order, and none of the rest comes before any of them. */
  ghost predicate HeadOrdered<T>(xs: seq<T>, m: nat, le: (T, T) -> bool) {
    forall i, j :: 0 <= i < m && i < j < |xs| ==> le(xs[i], xs[j])
  }

  lemma {:induction false} HeadOrderedTail<T>(xs: seq<T>, m: nat, le: (T, T) -> bool)
    requires 0 < m <= |xs|
    ensures HeadOrdered(xs, m, le) <==>
              (forall j :: 0 < j < |xs| ==> le(xs[0], xs[j])) && HeadOrdered(xs[1..], m - 1, le)
  {
    var rest := xs[1..];
    if HeadOrdered(xs, m, le) {
      forall i, j | 0 <= i < m - 1 && i < j < |rest| ensures le(rest[i], rest[j]) {
        assert rest[i] == xs[i + 1] && rest[j] == xs[j + 1];
      }
    }
    if (forall j :: 0 < j < |xs| ==> le(xs[0], xs[j])) && HeadOrdered(rest, m - 1, le) {
      forall i, j | 0 <= i < m && i < j < |xs| ensures le(xs[i], xs[j]) {
        if i > 0 { assert rest[i - 1] == xs[i] && rest[j - 1] == xs[j]; }
      }
    }
  }

  /** An element no later than the others stays in front. */
  lemma {:induction false} LeastStaysFirst<T>(xs: seq<T>, le: (T, T) -> bool)
    requires xs != [] && forall j :: 0 < j < |xs| ==> le(xs[0], xs[j])
    ensures Sort(xs, le) == [xs[0]] + Sort(xs[1..], le)
  {
    var tail := xs[1..];
    var rest := Sort(tail, le);
    if rest != [] {
      assert rest[0] in multiset(rest) && rest[0] in multiset(tail);
      var j :| 0 <= j < |tail| && tail[j] == rest[0];
      assert xs[j + 1] == rest[0];
    }
  }

  lemma {:induction false} FirstIsLeast<T(!new)>(xs: seq<T>, le: (T, T) -> bool)
    requires TotalPreorder(le) && xs != [] && |Sort(xs, le)| == |xs| && Sort(xs, le)[0] == xs[0]
    ensures forall j :: 0 < j < |xs| ==> le(xs[0], xs[j])
  {
    var sorted := Sort(xs, le);
    SortOrdered(xs, le);
    SortMembers(xs, le);
    forall j | 0 < j < |xs| ensures le(xs[0], xs[j]) {
      assert xs[j] in sorted;
      var k :| 0 <= k < |sorted| && sorted[k] == xs[j];
      assert le(xs[0], xs[0]);
    }
  }

  /** Exactly when sorting leaves the first `m` elements where they are. */
  lemma {:induction false} SortKeepsHeadIff<T(!new)>(xs: seq<T>, m: nat, le: (T, T) -> bool)
    requires TotalPreorder(le) && m <= |xs|
    ensures |Sort(xs, le)| == |xs| && (Sort(xs, le)[..m] == xs[..m] <==> HeadOrdered(xs, m, le))
  {
    SortMembers(xs, le);
    if m > 0 {
      HeadOrderedTail(xs, m, le);
      SortKeepsHeadIff(xs[1..], m - 1, le);
      var sorted, rest := Sort(xs, le), Sort(xs[1..], le);
      if sorted[..m] == xs[..m] {
        assert sorted[0] == sorted[..m][0] == xs[..m][0] == xs[0];
        FirstIsLeast(xs, le);
      }
      if forall j :: 0 < j < |xs| ==> le(xs[0], xs[j]) {
        LeastStaysFirst(xs, le);
        SameTails(sorted, xs, rest, m);
      }
    }
  }

  lemma {:induction false} SameTails<T>(sorted: seq<T>, xs: seq<T>, rest: seq<T>, m: nat)
    requires 0 < m <= |xs| == |sorted| && |rest| == |xs| - 1 && sorted == [xs[0]] + rest
    ensures sorted[..m] == xs[..m] <==> rest[..m - 1] == xs[1..][..m - 1]
  {
    assert sorted[..m] == [xs[0]] + rest[..m - 1];
    assert xs[..m] == [xs[0]] + xs[1..][..m - 1];
    assert sorted[..m][1..] == rest[..m - 1] && xs[..m][1..] == xs[1..][..m - 1];
  }

  /** `sorted(set(xs))`: increasing, each value once. */
  function InsertUnique<T(==,!new)>(x: T, xs: seq<T>, lt: (T, T) -> bool): (r: seq<T>)
    ensures forall y :: y in r <==> y == x || y in xs
  {
    if xs == [] || lt(x, xs[0]) then [x] + xs
    else if x == xs[0] then xs
    else [xs[0]] + InsertUnique(x, xs[1..], lt)
  }

  function SortUnique<T(==,!new)>(xs: seq<T>, lt: (T, T) -> bool): (r: seq<T>)
    ensures forall y :: y in r <==> y in xs
  {
    if xs == [] then [] else InsertUnique(xs[0], SortUnique(xs[1..], lt), lt)
  }

  lemma {:induction false} InsertUniqueOrdered<T(!new)>(x: T, xs: seq<T>, lt: (T, T) -> bool)
    requires StrictTotal(lt) && Ordered(xs, lt)
    ensures Ordered(InsertUnique(x, xs, lt), lt)
  {
    if xs != [] && !lt(x, xs[0]) && x != xs[0] {
      InsertUniqueOrdered(x, xs[1..], lt);
      var rest := InsertUnique(x, xs[1..], lt);
      forall j | 0 <= j < |rest| ensures lt(xs[0], rest[j]) {
        assert rest[j] in rest;
      }
    }
  }

  lemma {:induction false} SortUniqueOrdered<T(!new)>(xs: seq<T>, lt: (T, T) -> bool)
    requires StrictTotal(lt)
    ensures Ordered(SortUnique(xs, lt), lt)
  {
    if xs != [] {
      SortUniqueOrdered(xs[1..], lt);
      InsertUniqueOrdered(xs[0], SortUnique(xs[1..], lt), lt);
    }
  }

  /** An increasing list is determined by its members. */
  lemma {:induction false} OrderedUnique<T(!new)>(xs: seq<T>, ys: seq<T>, lt: (T, T) -> bool)
    requires StrictTotal(lt) && Ordered(xs, lt) && Ordered(ys, lt)
    requires forall x :: x in xs <==> x in ys
    ensures xs == ys
  {
    assert xs != [] ==> xs[0] in ys;
    assert ys != [] ==> ys[0] in xs;
    if xs != [] {
      assert xs[0] == ys[0];
      forall x ensures x in xs[1..] <==> x in ys[1..] {
        assert x in xs[1..] ==> x in ys && x != xs[0];
        assert x in ys[1..] ==> x in xs && x != ys[0];
      }
      OrderedUnique(xs[1..], ys[1..], lt);
      assert xs == [xs[0]] + xs[1..] && ys == [ys[0]] + ys[1..];
    }
  }

  /** Python's string order. */
  predicate StrLt(a: string, b: string) {
    if b == "" then false
    else a == "" || a[0] < b[0] || (a[0] == b[0] && StrLt(a[1..], b[1..]))
  }

  /** The first character at which `b` goes on or differs decides. */
  ghost predicate Precedes(a: string, b: string, k: nat) {
    k <= |a| && k < |b| && a[..k] == b[..k] && (k == |a| || a[k] < b[k])
  }

  /** The order is lexicographic: `a` is a proper prefix of `b`, or smaller where they first differ. */
  lemma {:induction false} StrLtIsLexicographic(a: string, b: string)
    ensures StrLt(a, b) <==> exists k: nat :: Precedes(a, b, k)
  {
    if a != "" && b != "" && a[0] == b[0] {
      StrLtIsLexicographic(a[1..], b[1..]);
      if k: nat :| Precedes(a[1..], b[1..], k) {
        assert a[..k + 1] == [a[0]] + a[1..][..k] && b[..k + 1] == [b[0]] + b[1..][..k];
        assert Precedes(a, b, k + 1);
      }
      if k: nat :| Precedes(a, b, k) {
        assert k > 0;
        assert a[1..][..k - 1] == a[..k][1..] && b[1..][..k - 1] == b[..k][1..];
        assert Precedes(a[1..], b[1..], k - 1);
      }
    } else if b != "" && (a == "" || a[0] < b[0]) {
      assert Precedes(a, b, 0);
    } else if a != "" && b != "" {
      forall k: nat ensures !Precedes(a, b, k) {
        if 0 < k <= |a| && k < |b| { assert a[..k][0] == a[0] && b[..k][0] == b[0]; }
      }
    }
  }

  lemma {:induction false} StrLtIrreflexive(a: string)
    ensures !StrLt(a, a)
  {
    if a != "" { StrLtIrreflexive(a[1..]); }
  }

  lemma {:induction false} StrLtTotal(a: string, b: string)
    ensures StrLt(a, b) || a == b || StrLt(b, a)
  {
    if a != "" && b != "" {
      StrLtTotal(a[1..], b[1..]);
      assert a == [a[0]] + a[1..] && b == [b[0]] + b[1..];
    }
  }

  lemma {:induction false} StrLtTrans(a: string, b: string, c: string)
    requires StrLt(a, b) && StrLt(b, c)
    ensures StrLt(a, c)
  {
    if a != "" && b != "" && c != "" && a[0] == b[0] == c[0] {
      StrLtTrans(a[1..], b[1..], c[1..]);
    }
  }

  lemma {:induction false} StrLtStrictTotal()
    ensures StrictTotal(StrLt)
  {
    forall a: string, b: string
      ensures !StrLt(a, a) && (StrLt(a, b) || a == b || StrLt(b, a))
    {
      StrLtIrreflexive(a);
      StrLtTotal(a, b);
    }
    forall a: string, b: string, c: string | StrLt(a, b) && StrLt(b, c) ensures StrLt(a, c) {
      StrLtTrans(a, b, c);
    }
  }
}
