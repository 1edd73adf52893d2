/**
 The LRU cache of compiled contexts (kitt/context/cache.py).

 Keys stand for the hashed tuples and values for compiled contexts; every operation holds the lock,
 so runs are sequences of operations.
 */
module ContextCache {
  import opened Common

  datatype Entry<K, V> = Entry(key: K, value: V)

  /** The value under a key, entries being listed from the least to the most recent. */
  function Lookup<K(==), V>(es: seq<Entry<K, V>>, k: K): Option<V> {
    if es == [] then None
    else if es[|es| - 1].key == k then Some(es[|es| - 1].value)
    else Lookup(es[..|es| - 1], k)
  }

  function Without<K(==), V>(es: seq<Entry<K, V>>, k: K): seq<Entry<K, V>> {
    if es == [] then []
    else if es[|es| - 1].key == k then Without(es[..|es| - 1], k)
    else Without(es[..|es| - 1], k) + [es[|es| - 1]]
  }

  function Touch<K(==), V>(es: seq<Entry<K, V>>, k: K, v: V): seq<Entry<K, V>> { Without(es, k) + [Entry(k, v)] }

  /** The `m` most recent. */
  function Top<T>(es: seq<T>, m: nat): (r: seq<T>)
    ensures |r| <= m
  {
    if |es| <= m then es else es[|es| - m..]
  }

  datatype Op<K, V> = Get(key: K) | Put(key: K, value: V) | Clear

  function OnGet<K(==), V>(es: seq<Entry<K, V>>, k: K): seq<Entry<K, V>> {
    match Lookup(es, k)
    case None => es
    case Some(v) => Touch(es, k, v)
  }

  /** One operation on a cache of size `m`. */
  function Apply<K(==), V>(m: nat, es: seq<Entry<K, V>>, op: Op<K, V>): seq<Entry<K, V>> {
    match op
    case Get(k) => OnGet(es, k)
    case Put(k, v) => Top(Touch(es, k, v), m)
    case Clear => []
  }

  function Run<K(==), V>(m: nat, ops: seq<Op<K, V>>): seq<Entry<K, V>> {
    if ops == [] then [] else Apply(m, Run(m, ops[..|ops| - 1]), ops[|ops| - 1])
  }

  /** The unbounded recency stack: nothing is ever evicted. */
  function Push<K(==), V>(es: seq<Entry<K, V>>, op: Op<K, V>): seq<Entry<K, V>> {
    match op
    case Get(k) => OnGet(es, k)
    case Put(k, v) => Touch(es, k, v)
    case Clear => []
  }

  function Stack<K(==), V>(ops: seq<Op<K, V>>): seq<Entry<K, V>> {
    if ops == [] then [] else Push(Stack(ops[..|ops| - 1]), ops[|ops| - 1])
  }

  // ---------------------------------------------------------------- keys occur once

  ghost predicate Unique<K, V>(es: seq<Entry<K, V>>) {
    forall i, j :: 0 <= i < j < |es| ==> es[i].key != es[j].key
  }

  ghost predicate Has<K, V>(es: seq<Entry<K, V>>, k: K) {
    exists i :: 0 <= i < |es| && es[i].key == k
  }

  lemma {:induction false} LookupFinds<K, V>(es: seq<Entry<K, V>>, k: K)
    ensures Lookup(es, k).Some? <==> Has(es, k)
    ensures Lookup(es, k).Some? ==> Entry(k, Lookup(es, k).value) in es
  {
    if es != [] {
      var init := es[..|es| - 1];
      LookupFinds(init, k);
      if Has(init, k) {
        var i :| 0 <= i < |init| && init[i].key == k;
        assert es[i].key == k;
      }
      if Has(es, k) && es[|es| - 1].key != k {
        var i :| 0 <= i < |es| && es[i].key == k;
        assert init[i].key == k;
      }
    }
  }

  lemma {:induction false} WithoutAbsent<K, V>(es: seq<Entry<K, V>>, k: K)
    requires !Has(es, k)
    ensures Without(es, k) == es
  {
    if es != [] {
      var init := es[..|es| - 1];
      forall i | 0 <= i < |init| ensures init[i].key != k { assert init[i] == es[i]; }
      WithoutAbsent(init, k);
      assert es == init + [es[|es| - 1]];
    }
  }

  /** Removing a key from a list of distinct keys takes out its one entry. */
  lemma {:induction false} WithoutAt<K, V>(es: seq<Entry<K, V>>, k: K, i: nat)
    requires Unique(es) && i < |es| && es[i].key == k
    ensures Without(es, k) == es[..i] + es[i + 1..]
  {
    var init, last := es[..|es| - 1], es[|es| - 1];
    if i == |es| - 1 {
      forall j | 0 <= j < |init| ensures init[j].key != k { assert init[j] == es[j]; }
      WithoutAbsent(init, k);
    } else {
      WithoutAt(init, k, i);
      assert init[..i] == es[..i] && init[i + 1..] + [last] == es[i + 1..];
    }
  }

  lemma {:induction false} TouchUnique<K, V>(es: seq<Entry<K, V>>, k: K, v: V)
    requires Unique(es)
    ensures Unique(Touch(es, k, v)) && |Touch(es, k, v)| == if Has(es, k) then |es| else |es| + 1
  {
    if Has(es, k) {
      var i :| 0 <= i < |es| && es[i].key == k;
      WithoutAt(es, k, i);
      RemoveUnique(es, i);
    } else {
      WithoutAbsent(es, k);
      forall j | 0 <= j < |es| ensures es[j].key != k {}
    }
  }

  lemma {:induction false} RemoveUnique<K, V>(es: seq<Entry<K, V>>, i: nat)
    requires Unique(es) && i < |es|
    ensures var r := es[..i] + es[i + 1..];
      Unique(r) && forall j :: 0 <= j < |r| ==> r[j].key != es[i].key
  {
    var r := es[..i] + es[i + 1..];
    forall j | 0 <= j < |r| ensures r[j] == es[if j < i then j else j + 1] {}
  }

  lemma {:induction false} ApplyUnique<K, V>(m: nat, es: seq<Entry<K, V>>, op: Op<K, V>)
    requires Unique(es) && |es| <= m
    ensures Unique(Apply(m, es, op)) && |Apply(m, es, op)| <= m
  {
    match op
    case Get(k) => {
      LookupFinds(es, k);
      if Lookup(es, k).Some? { TouchUnique(es, k, Lookup(es, k).value); }
    }
    case Put(k, v) => TouchUnique(es, k, v);
    case Clear =>
  }

  lemma {:induction false} RunUnique<K, V>(m: nat, ops: seq<Op<K, V>>)
    ensures Unique(Run(m, ops)) && |Run(m, ops)| <= m
  {
    if ops != [] {
      RunUnique(m, ops[..|ops| - 1]);
      ApplyUnique(m, Run(m, ops[..|ops| - 1]), ops[|ops| - 1]);
    }
  }

  lemma {:induction false} PushUnique<K, V>(es: seq<Entry<K, V>>, op: Op<K, V>)
    requires Unique(es)
    ensures Unique(Push(es, op))
  {
    match op
    case Get(k) => if Lookup(es, k).Some? { TouchUnique(es, k, Lookup(es, k).value); }
    case Put(k, v) => TouchUnique(es, k, v);
    case Clear =>
  }

  lemma {:induction false} StackUnique<K, V>(ops: seq<Op<K, V>>)
    ensures Unique(Stack(ops))
  {
    if ops != [] {
      StackUnique(ops[..|ops| - 1]);
      PushUnique(Stack(ops[..|ops| - 1]), ops[|ops| - 1]);
    }
  }

  // ---------------------------------------------------------------- the cache as the top of a stack

  lemma {:induction false} LookupTop<K, V>(es: seq<Entry<K, V>>, k: K, m: nat)
    requires Lookup(Top(es, m), k).Some?
    ensures Lookup(Top(es, m), k) == Lookup(es, k)
  {
    if |es| > m {
      var t := Top(es, m);
      if t[|t| - 1].key != k {
        var init := es[..|es| - 1];
        assert t[..|t| - 1] == init[|es| - m..] == Top(init, m - 1);
        LookupTop(init, k, m - 1);
      }
    }
  }

  /** Touching moves the key's one entry to the end, or adds one there. */
  lemma {:induction false} TouchAt<K, V>(es: seq<Entry<K, V>>, k: K, v: V, i: nat)
    requires Unique(es) && i < |es| && es[i].key == k
    ensures Touch(es, k, v) == es[..i] + es[i + 1..] + [Entry(k, v)]
  {
    WithoutAt(es, k, i);
  }

  lemma {:induction false} TouchFresh<K, V>(es: seq<Entry<K, V>>, k: K, v: V)
    requires !Has(es, k)
    ensures Touch(es, k, v) == es + [Entry(k, v)]
  {
    WithoutAbsent(es, k);
  }

  /** Moving an element from below the cut, or from above it. */
  lemma {:induction false} MoveBelow<T>(es: seq<T>, e: T, cut: nat, i: nat, t: seq<T>, u: seq<T>)
    requires i < cut < |es| && t == es[..i] + es[i + 1..] + [e] && u == es[cut..] + [e]
    ensures |t| == |es| && |u| == |es| - cut + 1 && t[cut..] == u[1..]
  {
  }

  lemma {:induction false} MoveAbove<T>(es: seq<T>, e: T, cut: nat, i: nat, t: seq<T>, u: seq<T>)
    requires cut <= i < |es| && t == es[..i] + es[i + 1..] + [e]
    requires u == es[cut..][..i - cut] + es[cut..][i - cut + 1..] + [e]
    ensures |t| == |es| && t[cut..] == u
  {
  }

  lemma {:induction false} TopTouchAbove<K, V>(es: seq<Entry<K, V>>, k: K, v: V, cut: nat, i: nat)
    requires Unique(es) && cut <= i < |es| && es[i].key == k
    ensures |Touch(es, k, v)| == |es| && Touch(es, k, v)[cut..] == Touch(es[cut..], k, v)
  {
    TouchAt(es, k, v, i);
    TouchAt(es[cut..], k, v, i - cut);
    MoveAbove(es, Entry(k, v), cut, i, Touch(es, k, v), Touch(es[cut..], k, v));
  }

  lemma {:induction false} TopTouchBelow<K, V>(es: seq<Entry<K, V>>, k: K, v: V, cut: nat, i: nat)
    requires Unique(es) && i < cut < |es| && es[i].key == k
    ensures |Touch(es, k, v)| == |es| && |Touch(es[cut..], k, v)| == |es| - cut + 1
    ensures Touch(es, k, v)[cut..] == Touch(es[cut..], k, v)[1..]
  {
    TouchAt(es, k, v, i);
    AbsentAbove(es, k, cut, i);
    TouchFresh(es[cut..], k, v);
    MoveBelow(es, Entry(k, v), cut, i, Touch(es, k, v), Touch(es[cut..], k, v));
  }

  lemma {:induction false} TopTouchHeld<K, V>(es: seq<Entry<K, V>>, k: K, v: V, m: nat)
    requires Unique(es) && 1 <= m < |es| && Has(es, k)
    ensures Top(Touch(es, k, v), m) == Top(Touch(Top(es, m), k, v), m)
  {
    var i :| 0 <= i < |es| && es[i].key == k;
    TopTouchAt(es, k, v, m, i);
  }

  lemma {:induction false} TopTouchAt<K, V>(es: seq<Entry<K, V>>, k: K, v: V, m: nat, i: nat)
    requires Unique(es) && 1 <= m < |es| && i < |es| && es[i].key == k
    ensures Top(Touch(es, k, v), m) == Top(Touch(Top(es, m), k, v), m)
  {
    var cut := |es| - m;
    assert Top(es, m) == es[cut..];
    if i >= cut { TopTouchAbove(es, k, v, cut, i); } else { TopTouchBelow(es, k, v, cut, i); }
    SameTop(Touch(es, k, v), Touch(es[cut..], k, v), m);
  }

  lemma {:induction false} SameTop<T>(t: seq<T>, u: seq<T>, m: nat)
    requires |t| >= m && m <= |u| <= m + 1 && t[|t| - m..] == if |u| == m then u else u[1..]
    ensures Top(t, m) == Top(u, m)
  {
  }

  lemma {:induction false} TopTouch<K, V>(es: seq<Entry<K, V>>, k: K, v: V, m: nat)
    requires Unique(es) && m >= 1
    ensures Top(Touch(es, k, v), m) == Top(Touch(Top(es, m), k, v), m)
  {
    if |es| > m {
      if Has(es, k) {
        TopTouchHeld(es, k, v, m);
      } else {
        TopTouchFresh(es, k, v, m);
      }
    }
  }

  lemma {:induction false} TopTouchFresh<K, V>(es: seq<Entry<K, V>>, k: K, v: V, m: nat)
    requires !Has(es, k) && 1 <= m < |es|
    ensures Top(Touch(es, k, v), m) == Top(Touch(Top(es, m), k, v), m)
  {
    AbsentFromTop(es, k, m);
    WithoutAbsent(es, k);
    WithoutAbsent(Top(es, m), k);
    TopSnoc(es, Entry(k, v), m);
  }

  lemma {:induction false} TopSnoc<T>(xs: seq<T>, x: T, m: nat)
    requires 1 <= m < |xs|
    ensures Top(xs + [x], m) == Top(Top(xs, m) + [x], m)
  {
    assert (xs + [x])[|xs| + 1 - m..] == xs[|xs| + 1 - m..] + [x];
    assert (xs[|xs| - m..] + [x])[1..] == xs[|xs| + 1 - m..] + [x];
  }

  lemma {:induction false} AbsentFromTop<K, V>(es: seq<Entry<K, V>>, k: K, m: nat)
    requires !Has(es, k)
    ensures !Has(Top(es, m), k)
  {
    var t := Top(es, m);
    forall j | 0 <= j < |t| ensures t[j].key != k { assert t[j] == es[|es| - |t| + j]; }
  }

  lemma {:induction false} AbsentAbove<K, V>(es: seq<Entry<K, V>>, k: K, cut: nat, i: nat)
    requires Unique(es) && i < cut <= |es| && es[i].key == k
    ensures !Has(es[cut..], k)
  {
  }

  lemma {:induction false} TopUnique<K, V>(es: seq<Entry<K, V>>, m: nat)
    requires Unique(es)
    ensures Unique(Top(es, m)) && forall k :: Has(Top(es, m), k) ==> Has(es, k)
  {
    var t := Top(es, m);
    var cut := |es| - |t|;
    forall i | 0 <= i < |t| ensures t[i] == es[cut + i] {}
  }

  /** A get of a key that is on the stack but below its top `m`. */
  ghost predicate AsksEvicted<K, V>(m: nat, es: seq<Entry<K, V>>, op: Op<K, V>) {
    op.Get? && Has(es, op.key) && !Has(Top(es, m), op.key)
  }

  /** One operation keeps the cache the top of the stack exactly when it does not ask for an evicted key. */
  lemma {:induction false} StepTracksIff<K, V>(m: nat, es: seq<Entry<K, V>>, op: Op<K, V>)
    requires m >= 1 && Unique(es)
    ensures Apply(m, Top(es, m), op) == Top(Push(es, op), m) <==> !AsksEvicted(m, es, op)
  {
    var t := Top(es, m);
    TopUnique(es, m);
    match op
    case Get(k) => {
      LookupFinds(es, k);
      LookupFinds(t, k);
      if Has(t, k) {
        LookupTop(es, k, m);
        TopTouch(es, k, Lookup(es, k).value, m);
        TouchUnique(t, k, Lookup(es, k).value);
      } else if Has(es, k) {
        var p := Top(Push(es, op), m);
        assert p[|p| - 1].key == k;
      }
    }
    case Put(k, v) => TopTouch(es, k, v, m);
    case Clear =>
  }

  ghost predicate Tracks<K, V>(m: nat, ops: seq<Op<K, V>>) {
    Run(m, ops) == Top(Stack(ops), m)
  }

  /** After the run and after each of its prefixes. */
  ghost predicate TracksThroughout<K, V>(m: nat, ops: seq<Op<K, V>>) {
    Tracks(m, ops) && (ops != [] ==> TracksThroughout(m, ops[..|ops| - 1]))
  }

  /** No operation of the run asks for an evicted key. */
  ghost predicate NeverAsksEvicted<K, V>(m: nat, ops: seq<Op<K, V>>) {
    ops != [] ==>
      NeverAsksEvicted(m, ops[..|ops| - 1]) && !AsksEvicted(m, Stack(ops[..|ops| - 1]), ops[|ops| - 1])
  }

  /** Throughout a run the cache is the top of the unbounded stack if and only if no get asks for a
      key that was evicted. */
  lemma {:induction false} TracksThroughoutIff<K, V>(m: nat, ops: seq<Op<K, V>>)
    requires m >= 1
    ensures TracksThroughout(m, ops) <==> NeverAsksEvicted(m, ops)
  {
    if ops != [] {
      var init := ops[..|ops| - 1];
      TracksThroughoutIff(m, init);
      StackUnique(init);
      StepTracksIff(m, Stack(init), ops[|ops| - 1]);
    }
  }

  lemma {:induction false} RunSnoc<K, V>(m: nat, ops: seq<Op<K, V>>, op: Op<K, V>)
    ensures Run(m, ops + [op]) == Apply(m, Run(m, ops), op) && Stack(ops + [op]) == Push(Stack(ops), op)
  {
    assert (ops + [op])[..|ops|] == ops;
  }

  /** Asking for an evicted key shows the difference, whatever else the cache holds. */
  lemma {:induction false} EvictedGetDiverges<K, V>(m: nat, ops: seq<Op<K, V>>, k: K)
    requires m >= 1 && Tracks(m, ops) && AsksEvicted(m, Stack(ops), Get(k))
    ensures Run(m, ops + [Get(k)]) == Run(m, ops) && !Tracks(m, ops + [Get(k)])
  {
    RunSnoc(m, ops, Get(k));
    LookupFinds(Run(m, ops), k);
    StackUnique(ops);
    StepTracksIff(m, Stack(ops), Get(k));
  }

  /** With room for one entry, two puts are enough to reach such a state. */
  lemma {:induction false} EvictedGetIsReachable<K, V>(a: K, b: K, v: V)
    requires a != b
    ensures var ops := [] + [Put(a, v)] + [Put(b, v)]; Tracks(1, ops) && AsksEvicted(1, Stack(ops), Get(a))
  {
    var none: seq<Op<K, V>> := [];
    RunSnoc(1, none, Put(a, v));
    RunSnoc(1, none + [Put(a, v)], Put(b, v));
    var one := [Entry(a, v)];
    assert Stack(none + [Put(a, v)]) == one;
    AbsentOther(a, b, v);
    assert Touch(one, b, v) == [Entry(a, v), Entry(b, v)];
    assert Top([Entry(a, v), Entry(b, v)], 1) == [Entry(b, v)];
    assert [Entry(a, v), Entry(b, v)][0].key == a;
  }

  lemma {:induction false} AbsentOther<K, V>(a: K, b: K, v: V)
    requires a != b
    ensures Without([Entry(a, v)], b) == [Entry(a, v)]
  {
    WithoutAbsent([Entry(a, v)], b);
  }

  /** The run without the gets that miss. */
  ghost function Heard<K, V>(m: nat, ops: seq<Op<K, V>>): seq<Op<K, V>> {
    if ops == [] then []
    else
      var init, op := ops[..|ops| - 1], ops[|ops| - 1];
      if op.Get? && !Has(Run(m, init), op.key) then Heard(m, init) else Heard(m, init) + [op]
  }

  /** In every run the cache is the top of the stack that only hits and puts touch. */
  lemma {:induction false} CacheIsTopOfHeard<K, V>(m: nat, ops: seq<Op<K, V>>)
    requires m >= 1
    ensures Run(m, ops) == Top(Stack(Heard(m, ops)), m)
  {
    if ops != [] {
      var init, op := ops[..|ops| - 1], ops[|ops| - 1];
      CacheIsTopOfHeard(m, init);
      var h := Heard(m, init);
      if op.Get? && !Has(Run(m, init), op.key) {
        LookupFinds(Run(m, init), op.key);
      } else {
        StackUnique(h);
        StepTracksIff(m, Stack(h), op);
        assert (h + [op])[..|h|] == h;
      }
    }
  }

  // ---------------------------------------------------------------- latest values

  function LatestPut<K(==), V>(ops: seq<Op<K, V>>, k: K): Option<V> {
    if ops == [] then None
    else
      match ops[|ops| - 1]
      case Put(key, v) => if key == k then Some(v) else LatestPut(ops[..|ops| - 1], k)
      case Clear => None
      case Get(_) => LatestPut(ops[..|ops| - 1], k)
  }

  lemma {:induction false} LookupWithout<K, V>(es: seq<Entry<K, V>>, k: K, other: K)
    requires other != k
    ensures Lookup(Without(es, k), other) == Lookup(es, other)
  {
    if es != [] {
      var init, last := es[..|es| - 1], es[|es| - 1];
      LookupWithout(init, k, other);
      if last.key != k { assert (Without(init, k) + [last])[..|Without(init, k)|] == Without(init, k); }
    }
  }

  lemma {:induction false} LookupTouch<K, V>(es: seq<Entry<K, V>>, k: K, v: V, other: K)
    ensures Lookup(Touch(es, k, v), other) == if other == k then Some(v) else Lookup(es, other)
  {
    assert Touch(es, k, v)[..|Without(es, k)|] == Without(es, k);
    if other != k { LookupWithout(es, k, other); }
  }

  /** The stack holds exactly the latest values put since the last clear. */
  lemma {:induction false} StackHoldsLatest<K, V>(ops: seq<Op<K, V>>, k: K)
    ensures Lookup(Stack(ops), k) == LatestPut(ops, k)
  {
    if ops != [] {
      var init := ops[..|ops| - 1];
      StackHoldsLatest(init, k);
      match ops[|ops| - 1]
      case Get(key) => if Lookup(Stack(init), key).Some? { LookupTouch(Stack(init), key, Lookup(Stack(init), key).value, k); }
      case Put(key, v) => LookupTouch(Stack(init), key, v, k);
      case Clear =>
    }
  }

  lemma {:induction false} HeardKeepsPuts<K, V>(m: nat, ops: seq<Op<K, V>>, k: K)
    ensures LatestPut(Heard(m, ops), k) == LatestPut(ops, k)
  {
    if ops != [] {
      var init, op := ops[..|ops| - 1], ops[|ops| - 1];
      HeardKeepsPuts(m, init, k);
      assert (Heard(m, init) + [op])[..|Heard(m, init)|] == Heard(m, init);
    }
  }

  /** A hit returns the value of the latest put since the last clear. */
  lemma {:induction false} HitIsLatest<K, V>(m: nat, ops: seq<Op<K, V>>, k: K)
    requires m >= 1 && Lookup(Run(m, ops), k).Some?
    ensures Lookup(Run(m, ops), k) == LatestPut(ops, k)
  {
    CacheIsTopOfHeard(m, ops);
    LookupTop(Stack(Heard(m, ops)), k, m);
    StackHoldsLatest(Heard(m, ops), k);
    HeardKeepsPuts(m, ops, k);
  }

  // ---------------------------------------------------------------- a larger cache

  /** `a` is a subsequence of `b`. */
  ghost predicate Sub<T>(a: seq<T>, b: seq<T>) {
    if b == [] then a == []
    else
      Sub(a, b[..|b| - 1]) || (a != [] && a[|a| - 1] == b[|b| - 1] && Sub(a[..|a| - 1], b[..|b| - 1]))
  }

  lemma {:induction false} SubEmpty<T>(b: seq<T>)
    ensures Sub([], b)
  {
    if b != [] { SubEmpty(b[..|b| - 1]); }
  }

  lemma {:induction false} SubSelf<T>(a: seq<T>)
    ensures Sub(a, a)
  {
    if a != [] { SubSelf(a[..|a| - 1]); }
  }

  lemma {:induction false} SubSnoc<T>(a: seq<T>, b: seq<T>, x: T)
    requires Sub(a, b)
    ensures Sub(a + [x], b + [x]) && Sub(a, b + [x])
  {
    assert (a + [x])[..|a|] == a && (b + [x])[..|b|] == b;
  }

  lemma {:induction false} SubMember<T>(a: seq<T>, b: seq<T>, x: T)
    requires Sub(a, b) && x in a
    ensures x in b
  {
    if b != [] {
      if Sub(a, b[..|b| - 1]) {
        SubMember(a, b[..|b| - 1], x);
      } else if x != a[|a| - 1] {
        SubMember(a[..|a| - 1], b[..|b| - 1], x);
      }
    }
  }

  lemma {:induction false} SubWithout<K, V>(a: seq<Entry<K, V>>, b: seq<Entry<K, V>>, k: K)
    requires Sub(a, b)
    ensures Sub(Without(a, k), Without(b, k))
  {
    if b == [] {
    } else if Sub(a, b[..|b| - 1]) {
      SubWithout(a, b[..|b| - 1], k);
      if b[|b| - 1].key != k { SubSnoc(Without(a, k), Without(b[..|b| - 1], k), b[|b| - 1]); }
    } else {
      SubWithout(a[..|a| - 1], b[..|b| - 1], k);
      if b[|b| - 1].key != k { SubSnoc(Without(a[..|a| - 1], k), Without(b[..|b| - 1], k), b[|b| - 1]); }
    }
  }

  /** Dropping the first of both, or of the shorter only. */
  lemma {:induction false} SubTail<T>(a: seq<T>, b: seq<T>)
    requires Sub(a, b) && a != []
    ensures b != [] && Sub(a[1..], b[1..]) && Sub(a[1..], b)
  {
    var ib := b[..|b| - 1];
    if Sub(a, ib) {
      SubTail(a, ib);
      SubSnoc(a[1..], ib[1..], b[|b| - 1]);
      assert b[1..] == ib[1..] + [b[|b| - 1]] && b == ib + [b[|b| - 1]];
      SubSnoc(a[1..], ib, b[|b| - 1]);
    } else if |a| == 1 {
      assert a[1..] == [];
      SubEmpty(b[1..]);
      SubEmpty(b);
    } else {
      var ia := a[..|a| - 1];
      SubTail(ia, ib);
      SubSnoc(ia[1..], ib[1..], b[|b| - 1]);
      SubSnoc(ia[1..], ib, b[|b| - 1]);
      assert b[1..] == ib[1..] + [b[|b| - 1]] && b == ib + [b[|b| - 1]] && a[1..] == ia[1..] + [b[|b| - 1]];
    }
  }

  /** The smaller cache is a subsequence of the larger, and the same while it is not full. */
  ghost predicate Included<K, V>(m: nat, small: seq<Entry<K, V>>, n: nat, large: seq<Entry<K, V>>) {
    && |small| <= m <= n && |large| <= n && Unique(small) && Unique(large)
    && Sub(small, large) && (|small| < m ==> small == large)
  }

  lemma {:induction false} SameValue<K, V>(small: seq<Entry<K, V>>, large: seq<Entry<K, V>>, k: K)
    requires Sub(small, large) && Unique(large) && Lookup(small, k).Some?
    ensures Lookup(large, k) == Lookup(small, k)
  {
    LookupFinds(small, k);
    var e := Entry(k, Lookup(small, k).value);
    SubMember(small, large, e);
    var i :| 0 <= i < |large| && large[i] == e;
    assert Has(large, k);
    LookupFinds(large, k);
    var f := Entry(k, Lookup(large, k).value);
    var j :| 0 <= j < |large| && large[j] == f;
    assert i == j;
  }

  lemma {:induction false} IncludedGet<K, V>(m: nat, small: seq<Entry<K, V>>, n: nat, large: seq<Entry<K, V>>, k: K)
    requires Included(m, small, n, large)
    ensures Included(m, OnGet(small, k), n, OnGet(large, k))
  {
    LookupFinds(small, k);
    LookupFinds(large, k);
    if Lookup(large, k).Some? {
      var v := Lookup(large, k).value;
      TouchUnique(large, k, v);
      SubWithout(small, large, k);
      SubSnoc(Without(small, k), Without(large, k), Entry(k, v));
      if Lookup(small, k).Some? {
        SameValue(small, large, k);
        TouchUnique(small, k, v);
      } else {
        WithoutAbsent(small, k);
      }
    } else if Lookup(small, k).Some? {
      SameValue(small, large, k);
    }
  }

  lemma {:induction false} HasMember<K, V>(small: seq<Entry<K, V>>, large: seq<Entry<K, V>>, k: K)
    requires Sub(small, large) && Has(small, k)
    ensures Has(large, k)
  {
    var i :| 0 <= i < |small| && small[i].key == k;
    SubMember(small, large, small[i]);
  }

  lemma {:induction false} IncludedPut<K, V>(m: nat, small: seq<Entry<K, V>>, n: nat, large: seq<Entry<K, V>>, k: K, v: V)
    requires Included(m, small, n, large) && m >= 1
    ensures Included(m, Top(Touch(small, k, v), m), n, Top(Touch(large, k, v), n))
  {
    var s, l := Touch(small, k, v), Touch(large, k, v);
    TouchUnique(small, k, v);
    TouchUnique(large, k, v);
    SubWithout(small, large, k);
    SubSnoc(Without(small, k), Without(large, k), Entry(k, v));
    if Has(small, k) { HasMember(small, large, k); }
    IncludedTop(m, s, n, l);
  }

  lemma {:induction false} IncludedTop<K, V>(m: nat, s: seq<Entry<K, V>>, n: nat, l: seq<Entry<K, V>>)
    requires 1 <= m <= n && 1 <= |s| <= m + 1 && |l| <= n + 1 && Unique(s) && Unique(l) && Sub(s, l)
    requires |s| < m ==> s == l
    requires |l| > n ==> |s| > m
    ensures Included(m, Top(s, m), n, Top(l, n))
  {
    SubTail(s, l);
  }

  /** On the same operations, a larger cache holds everything a smaller one does, in the same order. */
  lemma {:induction false} LargerCacheIncludes<K, V>(m: nat, n: nat, ops: seq<Op<K, V>>)
    requires 1 <= m <= n
    ensures Included(m, Run(m, ops), n, Run(n, ops))
  {
    if ops == [] {
    } else {
      var init := ops[..|ops| - 1];
      LargerCacheIncludes(m, n, init);
      match ops[|ops| - 1]
      case Get(k) => IncludedGet(m, Run(m, init), n, Run(n, init), k);
      case Put(k, v) => IncludedPut(m, Run(m, init), n, Run(n, init), k, v);
      case Clear =>
    }
  }

  /** So it hits wherever the smaller one does, with the same value. */
  lemma {:induction false} LargerCacheHits<K, V>(m: nat, n: nat, ops: seq<Op<K, V>>, k: K)
    requires 1 <= m <= n && Lookup(Run(m, ops), k).Some?
    ensures Lookup(Run(n, ops), k) == Lookup(Run(m, ops), k)
  {
    LargerCacheIncludes(m, n, ops);
    SameValue(Run(m, ops), Run(n, ops), k);
  }

  // ---------------------------------------------------------------- which keys are held

  /** The keys used since the last use of `k`, going by the operations alone; none if `k` was not put
      since the last clear. A get uses its key if that was put. */
  ghost function UsedSince<K(!new), V(!new)>(ops: seq<Op<K, V>>, k: K): Option<set<K>> {
    if ops == [] then None
    else
      var init, op := ops[..|ops| - 1], ops[|ops| - 1];
      if op.Clear? then None
      else if op.Get? && UsedSince(init, op.key).None? then UsedSince(init, k)
      else if op.key == k then Some({})
      else if UsedSince(init, k).None? then None
      else Some(UsedSince(init, k).value + {op.key})
  }

  ghost function KeysOf<K(!new), V(!new)>(es: seq<Entry<K, V>>): (r: set<K>)
    ensures forall k :: k in r <==> Has(es, k)
  {
    set i | 0 <= i < |es| :: es[i].key
  }

  lemma {:induction false} HasSnoc<K(!new), V(!new)>(es: seq<Entry<K, V>>, e: Entry<K, V>, k: K)
    ensures Has(es + [e], k) <==> Has(es, k) || e.key == k
  {
    var all := es + [e];
    assert all[|es|] == e;
    if i :| 0 <= i < |es| && es[i].key == k { assert all[i].key == k; }
  }

  lemma {:induction false} KeysCount<K(!new), V(!new)>(es: seq<Entry<K, V>>)
    requires Unique(es)
    ensures |KeysOf(es)| == |es|
  {
    if es != [] {
      var init, last := es[..|es| - 1], es[|es| - 1];
      assert es == init + [last];
      KeysCount(init);
      forall k ensures Has(es, k) <==> Has(init, k) || last.key == k { HasSnoc(init, last, k); }
      assert KeysOf(es) == KeysOf(init) + {last.key};
    }
  }

  /** The stack keeps the keys in the order of their last use: above a key are those used since. */
  ghost predicate StackedBySince<K(!new), V(!new)>(es: seq<Entry<K, V>>, since: K -> Option<set<K>>) {
    && (forall k :: Has(es, k) <==> since(k).Some?)
    && (forall i :: 0 <= i < |es| ==> since(es[i].key) == Some(KeysOf(es[i + 1..])))
  }

  lemma {:induction false} KeysAfterTouch<K(!new), V(!new)>(es: seq<Entry<K, V>>, k: K, v: V, i: nat, j: nat, t: seq<Entry<K, V>>)
    requires Unique(es) && i < |es| && es[i].key != k && t == Touch(es, k, v) && j < |t| && t[j].key == es[i].key
    ensures KeysOf(t[j + 1..]) == KeysOf(es[i + 1..]) + {k}
  {
    var after, before := t[j + 1..], es[i + 1..];
    forall x ensures Has(after, x) <==> Has(before, x) || x == k { AboveAfterTouch(es, k, v, i, j, t, x); }
    assert KeysOf(after) == KeysOf(before) + {k};
  }

  ghost predicate Above<K(!new), V(!new)>(es: seq<Entry<K, V>>, i: nat, x: K) {
    exists n :: i < n < |es| && es[n].key == x
  }

  lemma {:induction false} AboveIsHas<K(!new), V(!new)>(es: seq<Entry<K, V>>, i: nat, x: K)
    requires i < |es|
    ensures Has(es[i + 1..], x) <==> Above(es, i, x)
  {
    var rest := es[i + 1..];
    if n :| i < n < |es| && es[n].key == x { assert rest[n - i - 1].key == x; }
    if n :| 0 <= n < |rest| && rest[n].key == x { assert es[i + 1 + n].key == x; }
  }

  lemma {:induction false} AboveAfterTouch<K(!new), V(!new)>(
    es: seq<Entry<K, V>>, k: K, v: V, i: nat, j: nat, t: seq<Entry<K, V>>, x: K)
    requires Unique(es) && i < |es| && es[i].key != k && t == Touch(es, k, v) && j < |t| && t[j].key == es[i].key
    ensures Has(t[j + 1..], x) <==> Has(es[i + 1..], x) || x == k
  {
    AboveIsHas(es, i, x);
    AboveIsHas(t, j, x);
    TouchUnique(es, k, v);
    if Has(es, k) {
      var p :| 0 <= p < |es| && es[p].key == k;
      TouchAt(es, k, v, p);
      AboveMoved(es, p, Entry(k, v), i, j, t, x);
    } else {
      TouchFresh(es, k, v);
      AboveAdded(es, Entry(k, v), i, j, t, x);
    }
  }

  lemma {:induction false} AboveAdded<K(!new), V(!new)>(
    es: seq<Entry<K, V>>, e: Entry<K, V>, i: nat, j: nat, t: seq<Entry<K, V>>, x: K)
    requires Unique(t) && i < |es| && t == es + [e] && j < |t| && t[j].key == es[i].key
    ensures Above(t, j, x) <==> Above(es, i, x) || x == e.key
  {
    assert t[i] == es[i] && j == i;
    assert t[|es|] == e;
    if n :| i < n < |es| && es[n].key == x { assert t[n].key == x; }
  }

  lemma {:induction false} AboveMoved<K(!new), V(!new)>(
    es: seq<Entry<K, V>>, p: nat, e: Entry<K, V>, i: nat, j: nat, t: seq<Entry<K, V>>, x: K)
    requires Unique(t) && i < |es| && p < |es| && i != p && es[p].key == e.key
    requires t == es[..p] + es[p + 1..] + [e] && j < |t| && t[j].key == es[i].key
    ensures Above(t, j, x) <==> Above(es, i, x) || x == e.key
  {
    assert forall n :: 0 <= n < |t| - 1 ==> t[n] == es[if n < p then n else n + 1];
    var i' := if i < p then i else i - 1;
    assert t[i'] == es[i] && j == i' && t[|t| - 1] == e;
    if n :| i < n < |es| && es[n].key == x && n != p { assert t[if n < p then n else n - 1].key == x; }
    if n :| j < n < |t| - 1 && t[n].key == x { assert es[if n < p then n else n + 1].key == x; }
  }

  ghost function SinceAll<K(!new), V(!new)>(ops: seq<Op<K, V>>): K -> Option<set<K>> { k => UsedSince(ops, k) }

  lemma {:induction false} TouchStacked<K(!new), V(!new)>(
    es: seq<Entry<K, V>>, k: K, v: V, t: seq<Entry<K, V>>, since: K -> Option<set<K>>, since': K -> Option<set<K>>)
    requires Unique(es) && t == Touch(es, k, v) && StackedBySince(es, since)
    requires forall x :: since'(x) == if x == k then Some({}) else if since(x).None? then None else Some(since(x).value + {k})
    ensures StackedBySince(t, since')
  {
    TouchUnique(es, k, v);
    forall x ensures Has(t, x) <==> since'(x).Some? { TouchHas(es, k, v, x); }
    forall j | 0 <= j < |t| ensures since'(t[j].key) == Some(KeysOf(t[j + 1..])) {
      if t[j].key == k {
        assert t[|t| - 1].key == k && j == |t| - 1;
        assert KeysOf(t[j + 1..]) == {};
      } else {
        TouchHas(es, k, v, t[j].key);
        var i :| 0 <= i < |es| && es[i].key == t[j].key;
        KeysAfterTouch(es, k, v, i, j, t);
      }
    }
  }

  lemma {:induction false} TouchHas<K(!new), V(!new)>(es: seq<Entry<K, V>>, k: K, v: V, x: K)
    ensures Has(Touch(es, k, v), x) <==> Has(es, x) || x == k
  {
    LookupFinds(Touch(es, k, v), x);
    LookupFinds(es, x);
    assert (Without(es, k) + [Entry(k, v)])[..|Without(es, k)|] == Without(es, k);
    if x != k { LookupWithout(es, k, x); }
  }

  lemma {:induction false} StackIsByLastUse<K(!new), V(!new)>(ops: seq<Op<K, V>>)
    ensures StackedBySince(Stack(ops), SinceAll(ops))
  {
    if ops != [] {
      var init, op := ops[..|ops| - 1], ops[|ops| - 1];
      StackIsByLastUse(init);
      StackUnique(init);
      match op
      case Clear =>
      case Put(k, v) => TouchStacked(Stack(init), k, v, Stack(ops), SinceAll(init), SinceAll(ops));
      case Get(k) => {
        LookupFinds(Stack(init), k);
        assert Has(Stack(init), k) <==> SinceAll(init)(k).Some?;
        if Lookup(Stack(init), k).Some? {
          TouchStacked(Stack(init), k, Lookup(Stack(init), k).value, Stack(ops), SinceAll(init), SinceAll(ops));
        }
      }
    }
  }

  /** Least recently used: after any run a key is held if and only if it was put since the last clear and
      fewer than `m` other keys were put, or got with a hit, since its own last use. */
  lemma {:induction false} HeldIff<K(!new), V(!new)>(m: nat, ops: seq<Op<K, V>>, k: K)
    requires m >= 1
    ensures Has(Run(m, ops), k) <==>
              (UsedSince(Heard(m, ops), k).Some? && |UsedSince(Heard(m, ops), k).value| < m)
  {
    var h := Heard(m, ops);
    CacheIsTopOfHeard(m, ops);
    StackIsByLastUse(h);
    StackUnique(h);
    HeldInTop(Stack(h), SinceAll(h), k, m);
  }

  lemma {:induction false} HeldInTop<K(!new), V(!new)>(es: seq<Entry<K, V>>, since: K -> Option<set<K>>, k: K, m: nat)
    requires Unique(es) && StackedBySince(es, since)
    ensures Has(Top(es, m), k) <==> since(k).Some? && |since(k).value| < m
  {
    TopUnique(es, m);
    assert Has(es, k) <==> since(k).Some?;
    if Has(es, k) {
      var i :| 0 <= i < |es| && es[i].key == k;
      KeysCount(es[i + 1..]);
      if |es| > m && i < |es| - m { AbsentAbove(es, k, |es| - m, i); }
      if |es| > m && i >= |es| - m { assert Top(es, m)[i - (|es| - m)] == es[i]; }
    }
  }

  /** What was put is there. */
  lemma {:induction false} PutIsHeld<K, V>(m: nat, ops: seq<Op<K, V>>, k: K, v: V)
    requires m >= 1
    ensures Lookup(Run(m, ops + [Put(k, v)]), k) == Some(v)
  {
    RunSnoc(m, ops, Put(k, v));
    var t := Run(m, ops + [Put(k, v)]);
    assert t[|t| - 1] == Entry(k, v);
  }

  // ---------------------------------------------------------------- the class

  class ContextCache<K(==), V> {
    const maxsize: nat
    var entries: seq<Entry<K, V>>

    constructor (maxsize: int)
      ensures this.maxsize == (if maxsize < 1 then 1 else maxsize) && entries == Run(this.maxsize, [])
    {
      this.maxsize := if maxsize < 1 then 1 else maxsize;
      entries := [];
    }

    method Get(k: K) returns (value: Option<V>)
      modifies this
      ensures value == old(Lookup(entries, k)) && entries == Apply(maxsize, old(entries), Op.Get(k))
    {
      value := Lookup(entries, k);
      if value.Some? { entries := Without(entries, k) + [Entry(k, value.value)]; }
    }

    method Put(k: K, v: V)
      modifies this
      ensures entries == Apply(maxsize, old(entries), Op.Put(k, v))
    {
      entries := Without(entries, k) + [Entry(k, v)];
      ghost var touched := entries;
      while |entries| > maxsize
        invariant |entries| <= |touched| && entries == touched[|touched| - |entries|..]
        invariant |entries| < |touched| ==> |entries| >= maxsize
      {
        entries := entries[1..];
      }
    }

    method Clear()
      modifies this
      ensures entries == Apply(maxsize, old(entries), Op<K, V>.Clear)
    {
      entries := [];
    }
  }
}
