/**
 Validation, planning and acceptance of backend modules (kitt/backend_ir/service.py).

 A module is the JSON value handed in, down to the distinctions the code makes; `payload` stands for
 everything in a resource that only matters for equality. Fingerprints are injective, so comparing
 them is comparing resources.
 */
module BackendIr {
  import opened Common
  import opened Orders
  import opened DependencyGraph

  datatype Deps = DepsNotArray | Deps(ids: seq<string>)

  /** A truthy `spec` that is no object, or an object with its `depends_on` and the number of
      size, endpoint and entity faults in it. */
  datatype Spec = SpecNotObject | Spec(deps: Deps, faults: nat)

  datatype Item = NotResource | Resource(id: string, kindKnown: bool, spec: Spec, payload: nat)

  /** `Null` stands for any falsy value that cannot be iterated, such as JSON null; `Absent` stands for a
      missing one, and for an empty one that can be iterated. */
  datatype Resources = Absent | Null | NotArray | Array(items: seq<Item>)

  datatype Module = NotModule | Module(id: string, revision: Option<int>, resources: Resources)

  datatype Issue =
    | ModuleNotObject | InvalidId | InvalidRevision | ResourcesNotArray | TooManyResources
    | ResourceNotObject | InvalidResourceId | DuplicateResource(id: string) | InvalidKind | InvalidSpec | SpecFaults
    | InvalidDependencies(id: string) | SelfDependency(id: string) | UnknownDependency(id: string)
    | DependencyCycle(id: string)

  /** `validate` returns its issues, or dies on an attribute error. */
  datatype Validation = Crash | Report(issues: seq<Issue>)

  /** The code points that `str.strip` takes away. */
  const WHITE_SPACE := {
    9, 10, 11, 12, 13, 28, 29, 30, 31, 32,
    133, 160, 5760, 8192, 8193, 8194, 8195, 8196, 8197, 8198, 8199, 8200, 8201, 8202, 8232, 8233, 8239, 8287, 12288
  }

  predicate IsSpace(c: char) { c as int in WHITE_SPACE }

  /** White space by ranges: the control characters, the separators and the blanks. */
  lemma {:induction false} IsSpaceIff(c: char)
    ensures var n := c as int;
      IsSpace(c) <==>
        (9 <= n <= 13 || 28 <= n <= 32 || n == 133 || n == 160 || n == 5760 || 8192 <= n <= 8202
         || 8232 <= n <= 8233 || n == 8239 || n == 8287 || n == 12288)
  {
  }

  function StripLeft(s: string): string {
    if s != "" && IsSpace(s[0]) then StripLeft(s[1..]) else s
  }

  function StripRight(s: string): string {
    if s != "" && IsSpace(s[|s| - 1]) then StripRight(s[..|s| - 1]) else s
  }

  function Strip(s: string): string { StripRight(StripLeft(s)) }

  ghost predicate AllSpace(s: string) { forall i :: 0 <= i < |s| ==> IsSpace(s[i]) }

  lemma {:induction false} StripLeftSplits(s: string) returns (a: string)
    ensures s == a + StripLeft(s) && AllSpace(a) && (StripLeft(s) != "" ==> !IsSpace(StripLeft(s)[0]))
  {
    a := "";
    if s != "" && IsSpace(s[0]) {
      var rest := StripLeftSplits(s[1..]);
      a := [s[0]] + rest;
      assert s == [s[0]] + s[1..];
    }
  }

  lemma {:induction false} StripRightSplits(s: string) returns (b: string)
    ensures s == StripRight(s) + b && AllSpace(b) && StripRight(s) <= s
    ensures StripRight(s) != "" ==> !IsSpace(StripRight(s)[|StripRight(s)| - 1])
  {
    b := "";
    if s != "" && IsSpace(s[|s| - 1]) {
      var rest := StripRightSplits(s[..|s| - 1]);
      b := rest + [s[|s| - 1]];
      assert s == s[..|s| - 1] + [s[|s| - 1]];
    }
  }

  /** Stripping takes away white space at both ends and nothing else. */
  lemma {:induction false} StripSplits(s: string) returns (a: string, b: string)
    ensures s == a + Strip(s) + b && AllSpace(a) && AllSpace(b)
    ensures Strip(s) != "" ==> !IsSpace(Strip(s)[0]) && !IsSpace(Strip(s)[|Strip(s)| - 1])
  {
    a := StripLeftSplits(s);
    b := StripRightSplits(StripLeft(s));
    assert s == a + (Strip(s) + b);
  }

  predicate GoodLength(s: string, max: nat) { 1 <= |Strip(s)| <= max }

  predicate HasKey(item: Item) { item.Resource? && GoodLength(item.id, 256) }

  /** `by_id`: the last resource under each stripped id. */
  function ById(items: seq<Item>): map<string, Item> {
    if items == [] then map[]
    else
      var before, item := ById(items[..|items| - 1]), items[|items| - 1];
      if HasKey(item) then before[Strip(item.id) := item] else before
  }

  predicate ItemClean(item: Item) {
    HasKey(item) && item.kindKnown && item.spec.Spec? && item.spec.faults == 0
  }

  predicate ItemsClean(items: seq<Item>) {
    && (forall i :: 0 <= i < |items| ==> ItemClean(items[i]))
    && (forall i, j :: 0 <= i < j < |items| ==> Strip(items[i].id) != Strip(items[j].id))
  }

  ghost predicate LastKeyed(items: seq<Item>, key: string, i: nat) {
    && i < |items| && HasKey(items[i]) && Strip(items[i].id) == key
    && forall j :: i < j < |items| ==> !(HasKey(items[j]) && Strip(items[j].id) == key)
  }

  /** The index holds the last resource under each stripped id. */
  lemma {:induction false} ByIdHoldsLast(items: seq<Item>, key: string) returns (i: nat)
    requires key in ById(items)
    ensures LastKeyed(items, key, i) && ById(items)[key] == items[i]
  {
    var init, last := items[..|items| - 1], |items| - 1;
    if HasKey(items[last]) && Strip(items[last].id) == key {
      i := last;
    } else {
      i := ByIdHoldsLast(init, key);
      assert items[i] == init[i] && forall j :: i < j < |init| ==> items[j] == init[j];
    }
  }

  lemma {:induction false} ByIdKeys(items: seq<Item>, key: string)
    ensures key in ById(items) <==> exists i :: 0 <= i < |items| && HasKey(items[i]) && Strip(items[i].id) == key
    ensures key in ById(items) ==> ById(items)[key] in items && HasKey(ById(items)[key])
  {
    if items != [] {
      var init := items[..|items| - 1];
      ByIdKeys(init, key);
      if key in ById(init) {
        var i :| 0 <= i < |init| && HasKey(init[i]) && Strip(init[i].id) == key;
        assert items[i] == init[i];
      }
    }
  }

  /** What the first loop has to say about resource `i`. */
  ghost predicate DueAt(items: seq<Item>, i: nat, issue: Issue)
    requires i < |items|
  {
    var item := items[i];
    match issue
    case ResourceNotObject => item.NotResource?
    case InvalidResourceId => item.Resource? && !(1 <= |Strip(item.id)| <= 256)
    case DuplicateResource(id) =>
      HasKey(item) && Strip(item.id) == id && exists j :: 0 <= j < i && HasKey(items[j]) && Strip(items[j].id) == id
    case InvalidKind => HasKey(item) && !item.kindKnown
    case InvalidSpec => HasKey(item) && item.spec.SpecNotObject?
    case SpecFaults => HasKey(item) && item.spec.Spec? && item.spec.faults > 0
    case _ => false
  }

  ghost predicate DueBefore(items: seq<Item>, n: nat, issue: Issue)
    requires n <= |items|
  {
    exists i :: 0 <= i < n && DueAt(items, i, issue)
  }

  method ItemFaults(item: Item) returns (issues: seq<Issue>)
    requires HasKey(item)
    ensures forall issue :: issue in issues <==>
              ((issue == InvalidKind && !item.kindKnown) || (issue == InvalidSpec && item.spec.SpecNotObject?)
               || (issue == SpecFaults && item.spec.Spec? && item.spec.faults > 0))
    ensures issues == [] <==> ItemClean(item)
    ensures forall i :: 0 <= i < |issues| ==> !issues[i].DependencyCycle?
  {
    issues := [];
    if !item.kindKnown { issues := issues + [InvalidKind]; }
    if item.spec.SpecNotObject? {
      issues := issues + [InvalidSpec];
    } else if item.spec.faults > 0 {
      issues := issues + [SpecFaults];
    }
  }

  /** One resource of the first loop: its local faults, and whether its id was there already. */
  method ScanItem(item: Item, byId: map<string, Item>, ghost items: seq<Item>, ghost at: nat) returns (issues: seq<Issue>)
    requires at < |items| && items[at] == item && byId == ById(items[..at])
    ensures forall issue :: issue in issues <==> DueAt(items, at, issue)
    ensures issues == [] <==> ItemClean(item) && Strip(item.id) !in byId
    ensures forall i :: 0 <= i < |issues| ==> !issues[i].DependencyCycle?
  {
    issues := [];
    if item.Resource? { SeenBefore(items, at); }
    if item.NotResource? {
      issues := [ResourceNotObject];
    } else if !GoodLength(item.id, 256) {
      issues := [InvalidResourceId];
    } else {
      if Strip(item.id) in byId { issues := [DuplicateResource(Strip(item.id))]; }
      var faults := ItemFaults(item);
      issues := issues + faults;
    }
  }

  lemma {:induction false} SeenBefore(items: seq<Item>, at: nat)
    requires at < |items| && items[at].Resource?
    ensures Strip(items[at].id) in ById(items[..at]) <==>
              exists j :: 0 <= j < at && HasKey(items[j]) && Strip(items[j].id) == Strip(items[at].id)
  {
    ByIdKeys(items[..at], Strip(items[at].id));
    assert forall j :: 0 <= j < at ==> items[..at][j] == items[j];
  }

  lemma {:induction false} DueSnoc(items: seq<Item>, n: nat, issue: Issue)
    requires n < |items|
    ensures DueBefore(items, n + 1, issue) <==> DueBefore(items, n, issue) || DueAt(items, n, issue)
  {
  }

  /** The first loop of `validate`: indexes the resources and reports their local faults. */
  method ScanItems(items: seq<Item>) returns (issues: seq<Issue>, keys: seq<string>, byId: map<string, Item>)
    ensures byId == ById(items)
    ensures forall k :: k in byId <==> k in keys
    ensures forall issue :: issue in issues <==> DueBefore(items, |items|, issue)
    ensures issues == [] <==> ItemsClean(items)
    ensures forall i :: 0 <= i < |issues| ==> !issues[i].DependencyCycle?
  {
    issues, keys, byId := [], [], map[];
    for i := 0 to |items|
      invariant byId == ById(items[..i])
      invariant forall k :: k in byId <==> k in keys
      invariant forall issue :: issue in issues <==> DueBefore(items, i, issue)
      invariant issues == [] <==> ItemsClean(items[..i])
      invariant forall j :: 0 <= j < |issues| ==> !issues[j].DependencyCycle?
    {
      ScanStep(items, i);
      var faults := ScanItem(items[i], byId, items, i);
      forall issue ensures issue in issues + faults <==> DueBefore(items, i + 1, issue) { DueSnoc(items, i, issue); }
      issues := issues + faults;
      if HasKey(items[i]) {
        var key := Strip(items[i].id);
        if key !in byId { keys := keys + [key]; }
        byId := byId[key := items[i]];
      }
    }
    assert items[..|items|] == items;
  }

  lemma {:induction false} ScanStep(items: seq<Item>, i: nat)
    requires i < |items|
    ensures ById(items[..i + 1])
         == if HasKey(items[i]) then ById(items[..i])[Strip(items[i].id) := items[i]] else ById(items[..i])
    ensures ItemsClean(items[..i + 1])
       <==> ItemsClean(items[..i]) && ItemClean(items[i]) && Strip(items[i].id) !in ById(items[..i])
  {
    assert items[..i + 1] == items[..i] + [items[i]];
    assert items[..i + 1][..i] == items[..i];
    CleanSnoc(items[..i], items[i]);
  }

  lemma {:induction false} CleanSnoc(items: seq<Item>, item: Item)
    ensures ItemsClean(items + [item])
       <==> ItemsClean(items) && ItemClean(item) && Strip(item.id) !in ById(items)
  {
    var all := items + [item];
    if ItemsClean(all) {
      assert ItemClean(all[|items|]);
      assert forall i :: 0 <= i < |items| ==> items[i] == all[i];
      ByIdKeys(items, Strip(item.id));
    }
    if ItemsClean(items) && ItemClean(item) && Strip(item.id) !in ById(items) {
      ByIdKeys(items, Strip(item.id));
      forall i, j | 0 <= i < j < |all| ensures Strip(all[i].id) != Strip(all[j].id) {
        assert ItemClean(items[i]) && all[i] == items[i];
      }
    }
  }

  /** The dependencies of `key` that name another known resource. */
  function KnownDeps(key: string, ids: seq<string>, known: set<string>): (deps: seq<string>)
    ensures forall d :: d in deps <==> d in ids && d != key && d in known
  {
    if ids == [] then []
    else
      var before, id := KnownDeps(key, ids[..|ids| - 1], known), ids[|ids| - 1];
      if id != key && id in known then before + [id] else before
  }

  predicate AllKnown(key: string, ids: seq<string>, known: set<string>) {
    forall d :: d in ids ==> d != key && d in known
  }

  lemma {:induction false} AllKnownSnoc(key: string, ids: seq<string>, id: string, known: set<string>)
    ensures AllKnown(key, ids + [id], known) <==> AllKnown(key, ids, known) && id != key && id in known
  {
    if AllKnown(key, ids + [id], known) {
      assert forall d :: d in ids ==> d in ids + [id];
      assert id in ids + [id];
    }
  }

  predicate DepsClean(byId: map<string, Item>, key: string)
    requires key in byId
  {
    && byId[key].Resource? && byId[key].spec.Spec? && byId[key].spec.deps.Deps?
    && AllKnown(key, byId[key].spec.deps.ids, byId.Keys)
  }

  predicate Crashes(byId: map<string, Item>) {
    exists key :: key in byId && byId[key].Resource? && byId[key].spec.SpecNotObject?
  }

  predicate HasDeps(item: Item) { item.Resource? && item.spec.Spec? && item.spec.deps.Deps? }

  /** Declared dependencies among known resources, self-references dropped, for some of the keys. */
  function GraphOn(byId: map<string, Item>, keys: set<string>): Graph {
    map key | key in keys && key in byId && HasDeps(byId[key])
      :: KnownDeps(key, byId[key].spec.deps.ids, byId.Keys)
  }

  /** The dependency graph. */
  function GraphOf(byId: map<string, Item>): Graph { GraphOn(byId, byId.Keys) }

  lemma {:induction false} GraphOnStep(byId: map<string, Item>, keys: set<string>, key: string)
    requires key in byId
    ensures GraphOn(byId, keys + {key})
         == if HasDeps(byId[key])
            then GraphOn(byId, keys)[key := KnownDeps(key, byId[key].spec.deps.ids, byId.Keys)]
            else GraphOn(byId, keys)
  {
  }

  /** One resource of the second loop. */
  method ScanDeps(key: string, ids: seq<string>, known: set<string>)
    returns (issues: seq<Issue>, deps: seq<string>)
    ensures deps == KnownDeps(key, ids, known)
    ensures forall issue :: issue in issues <==>
              ((issue == SelfDependency(key) && key in ids)
               || (issue == UnknownDependency(key) && exists d :: d in ids && d != key && d !in known))
    ensures issues == [] <==> AllKnown(key, ids, known)
    ensures forall i :: 0 <= i < |issues| ==> !issues[i].DependencyCycle?
  {
    issues, deps := [], [];
    for i := 0 to |ids|
      invariant deps == KnownDeps(key, ids[..i], known)
      invariant SelfDependency(key) in issues <==> key in ids[..i]
      invariant UnknownDependency(key) in issues <==> exists d :: d in ids[..i] && d != key && d !in known
      invariant forall issue :: issue in issues ==> issue == SelfDependency(key) || issue == UnknownDependency(key)
      invariant issues == [] <==> AllKnown(key, ids[..i], known)
      invariant forall j :: 0 <= j < |issues| ==> !issues[j].DependencyCycle?
    {
      assert ids[..i + 1][..i] == ids[..i] && ids[..i + 1] == ids[..i] + [ids[i]];
      AllKnownSnoc(key, ids[..i], ids[i], known);
      if ids[i] == key {
        issues := issues + [SelfDependency(key)];
      } else if ids[i] !in known {
        issues := issues + [UnknownDependency(key)];
      } else {
        deps := deps + [ids[i]];
      }
    }
    assert ids[..|ids|] == ids;
  }

  /** What the second loop has to say about the resource under `key`. */
  ghost predicate DueInDeps(byId: map<string, Item>, key: string, issue: Issue)
    requires key in byId && byId[key].Resource? && byId[key].spec.Spec?
  {
    var deps := byId[key].spec.deps;
    match issue
    case InvalidDependencies(id) => id == key && deps.DepsNotArray?
    case SelfDependency(id) => id == key && deps.Deps? && key in deps.ids
    case UnknownDependency(id) => id == key && deps.Deps? && exists d :: d in deps.ids && d != key && d !in byId
    case _ => false
  }

  ghost predicate Linkable(byId: map<string, Item>, keys: set<string>) {
    forall k :: k in keys ==> k in byId && byId[k].Resource? && byId[k].spec.Spec?
  }

  ghost predicate DueInSome(byId: map<string, Item>, keys: set<string>, issue: Issue)
    requires Linkable(byId, keys)
  {
    exists k :: k in keys && DueInDeps(byId, k, issue)
  }

  /** The second loop: builds the graph, and dies on a `spec` that is no object. */
  method BuildGraph(keys: seq<string>, byId: map<string, Item>)
    returns (crashed: bool, issues: seq<Issue>, graph: Graph, graphKeys: seq<string>)
    requires forall k :: k in byId <==> k in keys
    requires forall k :: k in byId ==> byId[k].Resource?
    ensures crashed <==> Crashes(byId)
    ensures !crashed ==> graph == GraphOf(byId) && forall k :: k in graph <==> k in graphKeys
    ensures !crashed ==> Linkable(byId, byId.Keys) && forall issue :: issue in issues <==> DueInSome(byId, byId.Keys, issue)
    ensures !crashed ==> (issues == [] <==> forall k :: k in byId ==> DepsClean(byId, k))
    ensures !crashed ==> forall i :: 0 <= i < |issues| ==> !issues[i].DependencyCycle?
  {
    crashed, issues, graph, graphKeys := false, [], map[], [];
    ghost var done: set<string> := {};
    for i := 0 to |keys|
      invariant forall k :: k in done <==> k in keys[..i]
      invariant Linkable(byId, done)
      invariant forall issue :: issue in issues <==> DueInSome(byId, done, issue)
      invariant graph == GraphOn(byId, done) && forall k :: k in graph <==> k in graphKeys
    {
      var key := keys[i];
      assert keys[..i + 1] == keys[..i] + [key];
      assert key in keys;
      var spec := byId[key].spec;
      if spec.SpecNotObject? { return true, issues, graph, graphKeys; }
      GraphOnStep(byId, done, key);
      ghost var before := done;
      done := done + {key};
      if spec.deps.DepsNotArray? {
        DueInMore(byId, before, key, issues, [InvalidDependencies(key)]);
        issues := issues + [InvalidDependencies(key)];
      } else {
        var more, deps := ScanDeps(key, spec.deps.ids, byId.Keys);
        DueInMore(byId, before, key, issues, more);
        issues := issues + more;
        graph := graph[key := deps];
        graphKeys := graphKeys + [key];
      }
    }
    assert keys[..|keys|] == keys;
    assert done == byId.Keys;
    NothingDueIffClean(byId, issues);
  }

  lemma {:induction false} CleanIffNothingDue(byId: map<string, Item>, key: string)
    requires key in byId && byId[key].Resource? && byId[key].spec.Spec?
    ensures DepsClean(byId, key) <==> forall issue :: !DueInDeps(byId, key, issue)
  {
    if forall issue :: !DueInDeps(byId, key, issue) {
      assert !DueInDeps(byId, key, InvalidDependencies(key)) && !DueInDeps(byId, key, SelfDependency(key));
      assert !DueInDeps(byId, key, UnknownDependency(key));
    }
  }

  lemma {:induction false} NothingDueIffClean(byId: map<string, Item>, issues: seq<Issue>)
    requires Linkable(byId, byId.Keys) && forall issue :: issue in issues <==> DueInSome(byId, byId.Keys, issue)
    ensures issues == [] <==> forall k :: k in byId ==> DepsClean(byId, k)
    ensures forall i :: 0 <= i < |issues| ==> !issues[i].DependencyCycle?
  {
    forall k | k in byId ensures DepsClean(byId, k) <==> forall issue :: !DueInDeps(byId, k, issue) { CleanIffNothingDue(byId, k); }
    if issues != [] {
      assert issues[0] in issues && DueInSome(byId, byId.Keys, issues[0]);
    }
    forall i | 0 <= i < |issues| ensures !issues[i].DependencyCycle? { assert issues[i] in issues; }
    forall k, issue | issues == [] && k in byId ensures !DueInDeps(byId, k, issue) { assert issue !in issues; }
  }

  lemma {:induction false} DueInMore(byId: map<string, Item>, keys: set<string>, key: string, issues: seq<Issue>, more: seq<Issue>)
    requires Linkable(byId, keys + {key})
    requires forall issue :: issue in issues <==> DueInSome(byId, keys, issue)
    requires forall issue :: issue in more <==> DueInDeps(byId, key, issue)
    ensures forall issue :: issue in issues + more <==> DueInSome(byId, keys + {key}, issue)
  {
    forall issue ensures issue in issues + more <==> DueInSome(byId, keys + {key}, issue) {
      assert issue in issues + more <==> issue in issues || issue in more;
    }
  }

  function ItemsOf(r: Resources): seq<Item> {
    if r.Array? then r.items else []
  }

  /** The resources `validate` looks at. */
  function Window(m: Module, max: nat): seq<Item>
    requires m.Module?
  {
    var items := ItemsOf(m.resources);
    if |items| <= max then items else items[..max]
  }

  /** The first `max` resources are looked at, and no other. */
  lemma {:induction false} WindowIsPrefix(m: Module, max: nat)
    requires m.Module? && m.resources.Array?
    ensures var items, seen := m.resources.items, Window(m, max);
            seen <= items && |seen| <= max && (|seen| < max ==> seen == items)
  {
  }

  predicate HeaderClean(m: Module, max: nat) {
    && m.Module? && GoodLength(m.id, 128)
    && m.revision.Some? && m.revision.value >= 0
    && !m.resources.NotArray? && |ItemsOf(m.resources)| <= max
  }

  /** What an accepted module looks like, stated without reference to the checks. */
  ghost predicate WellFormed(m: Module, max: nat) {
    && HeaderClean(m, max) && ItemsClean(ItemsOf(m.resources))
    && (forall k :: k in ById(ItemsOf(m.resources)) ==> DepsClean(ById(ItemsOf(m.resources)), k))
    && !HasCycle(GraphOf(ById(ItemsOf(m.resources))))
  }

  /** Validation dies on an attribute error: some indexed resource has a truthy spec that is no object. */
  ghost predicate Dies(m: Module, max: nat) {
    m.Module? && !m.resources.NotArray? && Crashes(ById(Window(m, max)))
  }

  ghost predicate ReportsCycle(issues: seq<Issue>) {
    exists i :: 0 <= i < |issues| && issues[i].DependencyCycle?
  }

  lemma {:induction false} CycleIssuesOnly(before: seq<Issue>, after: seq<Issue>)
    requires forall i :: 0 <= i < |before| ==> !before[i].DependencyCycle?
    requires forall i :: 0 <= i < |after| ==> after[i].DependencyCycle?
    ensures ReportsCycle(before + after) <==> after != []
  {
    if after != [] {
      assert (before + after)[|before|] == after[0];
    }
  }

  /** What the header has to say. */
  ghost predicate DueInHeader(m: Module, max: nat, issue: Issue)
    requires m.Module?
  {
    match issue
    case InvalidId => !(1 <= |Strip(m.id)| <= 128)
    case InvalidRevision => m.revision.None? || m.revision.value < 0
    case ResourcesNotArray => m.resources.NotArray?
    case TooManyResources => m.resources.Array? && |m.resources.items| > max
    case _ => false
  }

  method Header(m: Module, max: nat) returns (issues: seq<Issue>)
    requires m.Module?
    ensures forall issue :: issue in issues <==> DueInHeader(m, max, issue)
    ensures issues == [] <==> GoodLength(m.id, 128) && m.revision.Some? && m.revision.value >= 0
                              && !m.resources.NotArray? && |ItemsOf(m.resources)| <= max
    ensures forall i :: 0 <= i < |issues| ==> !issues[i].DependencyCycle?
  {
    issues := [];
    if !GoodLength(m.id, 128) { issues := issues + [InvalidId]; }
    if m.revision.None? || m.revision.value < 0 { issues := issues + [InvalidRevision]; }
    if m.resources.NotArray? { return issues + [ResourcesNotArray]; }
    if |ItemsOf(m.resources)| > max { issues := issues + [TooManyResources]; }
  }

  /** The third loop, on a graph of the module. */
  method CycleIssues(graph: Graph, keys: seq<string>) returns (issues: seq<Issue>)
    requires forall k :: k in graph <==> k in keys
    ensures forall i :: 0 <= i < |issues| ==> issues[i].DependencyCycle? && OnCycle(graph, issues[i].id)
    ensures issues != [] <==> HasCycle(graph)
  {
    var check := new CycleCheck(graph);
    check.CheckAll(keys);
    issues := [];
    for i := 0 to |check.issues|
      invariant |issues| == i
      invariant forall j :: 0 <= j < i ==> issues[j].DependencyCycle? && OnCycle(graph, issues[j].id)
    {
      issues := issues + [DependencyCycle(check.issues[i])];
    }
  }

  /** Everything that `validate` reports, cycles apart. */
  ghost predicate Due(m: Module, max: nat, issue: Issue)
    requires !Dies(m, max)
  {
    if m.NotModule? then issue == ModuleNotObject
    else
      || DueInHeader(m, max, issue)
      || (!m.resources.NotArray? && DueBefore(Window(m, max), |Window(m, max)|, issue))
      || (!m.resources.NotArray? && exists k :: DueUnder(ById(Window(m, max)), k, issue))
  }

  ghost predicate DueUnder(byId: map<string, Item>, key: string, issue: Issue) {
    key in byId && byId[key].Resource? && byId[key].spec.Spec? && DueInDeps(byId, key, issue)
  }

  lemma {:induction false} DueInOne(
    m: Module, max: nat, issue: Issue, header: seq<Issue>, local: seq<Issue>, linked: seq<Issue>, cycles: seq<Issue>)
    requires m.Module? && !m.resources.NotArray? && !Dies(m, max) && !issue.DependencyCycle?
    requires var byId := ById(Window(m, max)); Linkable(byId, byId.Keys) && (issue in linked <==> DueInSome(byId, byId.Keys, issue))
    requires issue in header <==> DueInHeader(m, max, issue)
    requires issue in local <==> DueBefore(Window(m, max), |Window(m, max)|, issue)
    requires forall i :: 0 <= i < |cycles| ==> cycles[i].DependencyCycle?
    ensures issue in header + local + linked + cycles <==> Due(m, max, issue)
  {
    assert issue in header + local + linked + cycles <==> issue in header || issue in local || issue in linked;
    var byId := ById(Window(m, max));
    if DueInSome(byId, byId.Keys, issue) {
      var k :| k in byId.Keys && DueInDeps(byId, k, issue);
      assert DueUnder(byId, k, issue);
    }
    if k :| DueUnder(byId, k, issue) {
      assert k in byId.Keys && DueInDeps(byId, k, issue);
    }
  }

  /** `validate`. A cycle is reported exactly when the dependency graph has one, whatever else is
      wrong; no issue at all means the module is well formed, and conversely. */
  method Validate(m: Module, max: nat) returns (r: Validation)
    ensures r.Crash? <==> Dies(m, max)
    ensures r.Report? && m.Module? && !m.resources.NotArray? ==>
              (ReportsCycle(r.issues) <==> HasCycle(GraphOf(ById(Window(m, max)))))
    ensures r.Report? ==> (r.issues == [] <==> WellFormed(m, max))
    ensures r.Report? ==> forall issue: Issue :: !issue.DependencyCycle? ==> (issue in r.issues <==> Due(m, max, issue))
    ensures r.Report? && m.Module? && !m.resources.NotArray? ==>
              forall id :: DependencyCycle(id) in r.issues ==> OnCycle(GraphOf(ById(Window(m, max))), id)
  {
    if m.NotModule? { return Report([ModuleNotObject]); }
    var issues := Header(m, max);
    if m.resources.NotArray? { return Report(issues); }
    var items := Window(m, max);
    var local, keys, byId := ScanItems(items);
    forall k | k in byId ensures byId[k].Resource? { ByIdKeys(items, k); }
    var crashed, linked, graph, graphKeys := BuildGraph(keys, byId);
    if crashed { return Crash; }
    var cycles := CycleIssues(graph, graphKeys);
    CycleIssuesOnly(issues + local + linked, cycles);
    forall issue: Issue | !issue.DependencyCycle? ensures issue in issues + local + linked + cycles <==> Due(m, max, issue) {
      DueInOne(m, max, issue, issues, local, linked, cycles);
    }
    r := Report(issues + local + linked + cycles);
  }

  // ---- planning ----

  type Table = map<string, Item>

  predicate Listed(item: Item) { item.Resource? && item.id != "" }

  /** `{str(item["id"]): item for item in resources if ...}`, by the id as written. */
  function TableOf(items: seq<Item>): Table {
    if items == [] then map[]
    else
      var before, item := TableOf(items[..|items| - 1]), items[|items| - 1];
      if Listed(item) then before[item.id := item] else before
  }

  function IdsOf(items: seq<Item>): (ids: seq<string>)
    ensures forall id :: id in ids <==> id in TableOf(items)
  {
    if items == [] then []
    else
      var before, item := IdsOf(items[..|items| - 1]), items[|items| - 1];
      if Listed(item) then before + [item.id] else before
  }

  datatype Op = Add(id: string, value: Item) | Remove(id: string) | Replace(id: string, value: Item)

  function OpFor(prior: Table, next: Table, id: string): Option<Op> {
    if id !in prior then (if id in next then Some(Add(id, next[id])) else None)
    else if id !in next then Some(Remove(id))
    else if prior[id] != next[id] then Some(Replace(id, next[id]))
    else None
  }

  function DiffOps(ids: seq<string>, prior: Table, next: Table): seq<Op> {
    if ids == [] then []
    else
      var before, op := DiffOps(ids[..|ids| - 1], prior, next), OpFor(prior, next, ids[|ids| - 1]);
      if op.Some? then before + [op.value] else before
  }

  function ApplyOp(t: Table, op: Op): Table {
    match op
    case Add(id, value) => t[id := value]
    case Remove(id) => t - {id}
    case Replace(id, value) => t[id := value]
  }

  function ApplyOps(t: Table, ops: seq<Op>): Table {
    if ops == [] then t else ApplyOp(ApplyOps(t, ops[..|ops| - 1]), ops[|ops| - 1])
  }

  function SortedIds(prior: seq<Item>, next: seq<Item>): seq<string> {
    SortUnique(IdsOf(prior) + IdsOf(next), StrLt)
  }

  ghost predicate Differ(prior: Table, next: Table, id: string) {
    (id in prior) != (id in next) || (id in prior && id in next && prior[id] != next[id])
  }

  ghost predicate Agree(a: Table, b: Table, id: string) {
    (id in a <==> id in b) && (id in a && id in b ==> a[id] == b[id])
  }

  lemma {:induction false} AgreeEverywhere(a: Table, b: Table)
    requires forall id :: Agree(a, b, id)
    ensures a == b
  {
    forall id ensures id in a <==> id in b { assert Agree(a, b, id); }
    forall id | id in a ensures a[id] == b[id] { assert Agree(a, b, id); }
  }

  /** After the operations for some ids, exactly those ids agree with the new table. */
  lemma {:induction false} DiffRebuildsPart(ids: seq<string>, prior: Table, next: Table, id: string)
    ensures Agree(ApplyOps(prior, DiffOps(ids, prior, next)), if id in ids then next else prior, id)
  {
    if ids != [] {
      var init, last := ids[..|ids| - 1], ids[|ids| - 1];
      DiffRebuildsPart(init, prior, next, id);
      var before, op := DiffOps(init, prior, next), OpFor(prior, next, last);
      assert id in ids <==> id in init || id == last by { assert ids == init + [last]; }
      OneOp(ApplyOps(prior, before), prior, next, last, id);
      if op.Some? { ApplyOpsSnoc(prior, before, op.value); }
    }
  }

  lemma {:induction false} ApplyOpsSnoc(t: Table, ops: seq<Op>, op: Op)
    ensures ApplyOps(t, ops + [op]) == ApplyOp(ApplyOps(t, ops), op)
  {
    assert (ops + [op])[..|ops|] == ops;
  }

  /** One operation makes its id agree with the new table and leaves every other id alone. */
  lemma {:induction false} OneOp(t: Table, prior: Table, next: Table, last: string, id: string)
    requires Agree(t, prior, id) || Agree(t, next, id)
    ensures var op := OpFor(prior, next, last);
            var t' := if op.Some? then ApplyOp(t, op.value) else t;
            if id == last then Agree(t', next, id) else Agree(t', t, id)
  {
  }

  /** Applying a plan to what it was planned against gives the planned module. */
  lemma {:induction false} PlanRebuildsModule(prior: seq<Item>, next: seq<Item>)
    ensures ApplyOps(TableOf(prior), DiffOps(SortedIds(prior, next), TableOf(prior), TableOf(next))) == TableOf(next)
  {
    var ids := SortedIds(prior, next);
    var t := ApplyOps(TableOf(prior), DiffOps(ids, TableOf(prior), TableOf(next)));
    forall id ensures Agree(t, TableOf(next), id) {
      DiffRebuildsPart(ids, TableOf(prior), TableOf(next), id);
    }
    AgreeEverywhere(t, TableOf(next));
  }

  /** `ops` are the operations for the ids that differ among `ids`, increasing by id. */
  ghost predicate OpsFor(ids: seq<string>, prior: Table, next: Table, ops: seq<Op>, lt: (string, string) -> bool) {
    && (forall i :: 0 <= i < |ops| ==> ops[i].id in ids && OpFor(prior, next, ops[i].id) == Some(ops[i]))
    && (forall i, j :: 0 <= i < j < |ops| ==> lt(ops[i].id, ops[j].id))
    && (forall id :: id in ids && Differ(prior, next, id) ==> HasTarget(ops, id))
  }

  ghost predicate HasTarget(ops: seq<Op>, id: string) {
    exists i :: 0 <= i < |ops| && ops[i].id == id
  }

  lemma {:induction false} OpsForSnoc(init: seq<string>, last: string, prior: Table, next: Table, before: seq<Op>,
                   lt: (string, string) -> bool)
    requires OpsFor(init, prior, next, before, lt)
    requires forall id :: id in init ==> lt(id, last)
    ensures var op := OpFor(prior, next, last);
            OpsFor(init + [last], prior, next, if op.Some? then before + [op.value] else before, lt)
  {
    var op, ids := OpFor(prior, next, last), init + [last];
    var ops := if op.Some? then before + [op.value] else before;
    forall i | 0 <= i < |ops| ensures ops[i].id in ids && OpFor(prior, next, ops[i].id) == Some(ops[i]) {
      if i < |before| { assert ops[i] == before[i] && before[i].id in init; }
    }
    forall i, j | 0 <= i < j < |ops| ensures lt(ops[i].id, ops[j].id) {
      assert ops[i] == before[i];
      if j < |before| { assert ops[j] == before[j]; }
    }
    forall id | id in ids && Differ(prior, next, id) ensures HasTarget(ops, id) {
      TargetKept(init, last, prior, next, before, ops, id, lt);
    }
  }

  lemma {:induction false} TargetKept(init: seq<string>, last: string, prior: Table, next: Table, before: seq<Op>,
                   ops: seq<Op>, id: string, lt: (string, string) -> bool)
    requires OpsFor(init, prior, next, before, lt) && id in init + [last] && Differ(prior, next, id)
    requires ops == if OpFor(prior, next, last).Some? then before + [OpFor(prior, next, last).value] else before
    ensures HasTarget(ops, id)
  {
    if id in init {
      var i :| 0 <= i < |before| && before[i].id == id;
      assert ops[i].id == id;
    } else {
      assert ops[|before|].id == id;
    }
  }

  lemma {:induction false} DiffTargets(ids: seq<string>, prior: Table, next: Table, lt: (string, string) -> bool)
    requires Ordered(ids, lt)
    ensures OpsFor(ids, prior, next, DiffOps(ids, prior, next), lt)
  {
    if ids != [] {
      var init, last := ids[..|ids| - 1], ids[|ids| - 1];
      assert Ordered(init, lt);
      DiffTargets(init, prior, next, lt);
      forall id | id in init ensures lt(id, last) {
        var k :| 0 <= k < |init| && init[k] == id;
        assert lt(ids[k], ids[|ids| - 1]);
      }
      OpsForSnoc(init, last, prior, next, DiffOps(init, prior, next), lt);
      assert init + [last] == ids;
    }
  }

  /** A plan lists each id that differs exactly once, in order, and no other id. */
  lemma {:induction false} PlanTouchesWhatDiffers(prior: seq<Item>, next: seq<Item>, id: string)
    ensures var ops := DiffOps(SortedIds(prior, next), TableOf(prior), TableOf(next));
            && (HasTarget(ops, id) <==> Differ(TableOf(prior), TableOf(next), id))
            && (forall i, j :: 0 <= i < j < |ops| ==> ops[i].id != ops[j].id && StrLt(ops[i].id, ops[j].id))
  {
    StrLtStrictTotal();
    SortUniqueOrdered(IdsOf(prior) + IdsOf(next), StrLt);
    DiffTargets(SortedIds(prior, next), TableOf(prior), TableOf(next), StrLt);
    assert Differ(TableOf(prior), TableOf(next), id) ==> id in SortedIds(prior, next);
  }

  lemma {:induction false} TableHoldsLast(items: seq<Item>, id: string)
    ensures id in TableOf(items) <==> exists i :: 0 <= i < |items| && items[i].Resource? && items[i].id == id != ""
    ensures id in TableOf(items) ==> exists i: nat :: LastUnder(items, id, i) && TableOf(items)[id] == items[i]
  {
    if items != [] {
      var init, last := items[..|items| - 1], |items| - 1;
      TableHoldsLast(init, id);
      if items[last].Resource? && items[last].id == id != "" {
        assert LastUnder(items, id, last);
      } else {
        if i :| 0 <= i < |init| && init[i].Resource? && init[i].id == id != "" { assert items[i] == init[i]; }
        if id in TableOf(init) {
          var i: nat :| LastUnder(init, id, i) && TableOf(init)[id] == init[i];
          assert items[i] == init[i] && LastUnder(items, id, i);
        }
      }
    }
  }

  /** Position `i` has the last resource under `id`. */
  ghost predicate LastUnder(items: seq<Item>, id: string, i: nat) {
    && i < |items| && items[i].Resource? && items[i].id == id != ""
    && forall j :: i < j < |items| ==> !(items[j].Resource? && items[j].id == id)
  }

  /** Every operation of a plan is of the kind its resource calls for: added when only the new module has
      it, removed when only the old one had it, replaced when both do and differ, with the new value. */
  lemma {:induction false} PlanOperations(prior: seq<Item>, next: seq<Item>, i: nat)
    requires i < |DiffOps(SortedIds(prior, next), TableOf(prior), TableOf(next))|
    ensures var op := DiffOps(SortedIds(prior, next), TableOf(prior), TableOf(next))[i];
            var was, now := TableOf(prior), TableOf(next);
            && (op.Add? <==> op.id !in was && op.id in now)
            && (op.Remove? <==> op.id in was && op.id !in now)
            && (op.Replace? <==> op.id in was && op.id in now && was[op.id] != now[op.id])
            && (op.Add? || op.Replace? ==> op.id in now && op.value == now[op.id])
  {
    StrLtStrictTotal();
    SortUniqueOrdered(IdsOf(prior) + IdsOf(next), StrLt);
    DiffTargets(SortedIds(prior, next), TableOf(prior), TableOf(next), StrLt);
  }

  /** Applying an operation as a store would that refuses to add what is there, or to replace or remove
      what is not. */
  function ApplyStrictly(t: Table, op: Op): Option<Table> {
    if op.Add? == (op.id in t) then None else Some(ApplyOp(t, op))
  }

  function ApplyAllStrictly(t: Table, ops: seq<Op>): Option<Table> {
    if ops == [] then Some(t)
    else
      var before := ApplyAllStrictly(t, ops[..|ops| - 1]);
      if before.None? then None else ApplyStrictly(before.value, ops[|ops| - 1])
  }

  /** No operation of a plan is refused. */
  lemma {:induction false} NoneRefused(ids: seq<string>, prior: Table, next: Table)
    requires forall i, j :: 0 <= i < j < |ids| ==> ids[i] != ids[j]
    ensures ApplyAllStrictly(prior, DiffOps(ids, prior, next)) == Some(ApplyOps(prior, DiffOps(ids, prior, next)))
  {
    if ids != [] {
      var init, last := ids[..|ids| - 1], ids[|ids| - 1];
      NoneRefused(init, prior, next);
      var before, op := DiffOps(init, prior, next), OpFor(prior, next, last);
      if op.Some? {
        assert last !in init;
        DiffRebuildsPart(init, prior, next, last);
        assert (before + [op.value])[..|before|] == before;
      }
    }
  }

  /** So a plan rebuilds the module even on such a store. */
  lemma {:induction false} PlanIsNeverRefused(prior: seq<Item>, next: seq<Item>)
    ensures ApplyAllStrictly(TableOf(prior), DiffOps(SortedIds(prior, next), TableOf(prior), TableOf(next))) == Some(TableOf(next))
  {
    StrLtStrictTotal();
    SortUniqueOrdered(IdsOf(prior) + IdsOf(next), StrLt);
    NoneRefused(SortedIds(prior, next), TableOf(prior), TableOf(next));
    PlanRebuildsModule(prior, next);
  }

  /** Planning a module against itself gives nothing to do. */
  lemma {:induction false} NothingToDo(ids: seq<string>, t: Table)
    ensures DiffOps(ids, t, t) == []
  {
    if ids != [] { NothingToDo(ids[..|ids| - 1], t); }
  }

  // ---- the service ----

  datatype Snapshot = Snapshot(resources: Resources, revision: nat)

  datatype PlanResult =
    | PlanRaises                                   // AttributeError in validate, or TypeError on null resources
    | PlanRejected(base: nat, issues: seq<Issue>)
    | Planned(base: nat, ops: seq<Op>)

  function RevisionOf(m: Module): nat {
    if m.Module? && m.revision.Some? && m.revision.value > 0 then m.revision.value else 0
  }

  /** What `plan` gives for a module that passes validation: iterating null resources, its own or the
      stored ones, raises. */
  function PlanFor(snapshots: map<string, Snapshot>, m: Module): PlanResult
    requires m.Module?
  {
    var previous := if m.id in snapshots then snapshots[m.id] else Snapshot(Absent, 0);
    if previous.resources.Null? || m.resources.Null? then PlanRaises
    else
      var prior, next := ItemsOf(previous.resources), ItemsOf(m.resources);
      Planned(previous.revision, DiffOps(SortedIds(prior, next), TableOf(prior), TableOf(next)))
  }

  /** The state after one `accept` call, successful or not. */
  ghost function Accepted(snapshots: map<string, Snapshot>, m: Module, max: nat): map<string, Snapshot> {
    if WellFormed(m, max) then
      var revision := if m.id in snapshots then snapshots[m.id].revision else 0;
      snapshots[m.id := Snapshot(m.resources, revision + 1)]
    else snapshots
  }

  class BackendService {
    const maxResources: nat
    var snapshots: map<string, Snapshot>

    constructor (maxResources: int)
      ensures snapshots == map[] && Nearest(maxResources, 1, 4096, this.maxResources)
    {
      this.maxResources := if maxResources < 1 then 1 else if maxResources > 4096 then 4096 else maxResources;
      snapshots := map[];
    }

    /** `plan`. It raises where validation dies, and rejects every other malformed module. On a
        well-formed one it raises exactly when the module or the stored snapshot has null resources;
        otherwise it gives the difference between the two. */
    method Plan(m: Module) returns (r: PlanResult)
      ensures Dies(m, maxResources) ==> r.PlanRaises?
      ensures !WellFormed(m, maxResources) && !Dies(m, maxResources) ==>
                && r.PlanRejected? && r.issues != []
                && r.base == if m.Module? && m.revision.Some? then Max(0, m.revision.value) else 0
      ensures WellFormed(m, maxResources) ==> r == PlanFor(snapshots, m)
      ensures WellFormed(m, maxResources) ==>
                (r.PlanRaises? <==> m.resources.Null? || (m.id in snapshots && snapshots[m.id].resources.Null?))
    {
      var v := Validate(m, maxResources);
      WellFormedDoesNotCrash(m, maxResources);
      if v.Crash? { return PlanRaises; }
      if v.issues != [] { return PlanRejected(RevisionOf(m), v.issues); }
      var previous := if m.id in snapshots then snapshots[m.id] else Snapshot(Absent, 0);
      if previous.resources.Null? || m.resources.Null? { return PlanRaises; }
      var oldItems, newItems := ItemsOf(previous.resources), ItemsOf(m.resources);
      var ids := SortedIds(oldItems, newItems);
      var oldTable, newTable := TableOf(oldItems), TableOf(newItems);
      var ops := [];
      for i := 0 to |ids|
        invariant ops == DiffOps(ids[..i], oldTable, newTable)
      {
        assert ids[..i + 1][..i] == ids[..i];
        var op := OpFor(oldTable, newTable, ids[i]);
        if op.Some? { ops := ops + [op.value]; }
      }
      assert ids[..|ids|] == ids;
      r := Planned(previous.revision, ops);
    }

    /** `accept`: stores a well-formed module under the next revision; anything else changes nothing. */
    method Accept(m: Module) returns (revision: Option<nat>)
      modifies this
      ensures snapshots == Accepted(old(snapshots), m, maxResources)
      ensures revision.Some? <==> WellFormed(m, maxResources)
      ensures revision.Some? ==> m.id in snapshots && snapshots[m.id].revision == revision.value
    {
      var v := Validate(m, maxResources);
      WellFormedDoesNotCrash(m, maxResources);
      if v.Crash? || v.issues != [] { return None; }
      var current := if m.id in snapshots then snapshots[m.id].revision else 0;
      snapshots := snapshots[m.id := Snapshot(m.resources, current + 1)];
      revision := Some(current + 1);
    }
  }

  lemma {:induction false} WellFormedDoesNotCrash(m: Module, max: nat)
    ensures WellFormed(m, max) ==> !Dies(m, max)
  {
    if WellFormed(m, max) {
      forall k | k in ById(Window(m, max)) ensures ById(Window(m, max))[k].spec.Spec? {
        assert DepsClean(ById(ItemsOf(m.resources)), k);
      }
    }
  }

  /** The snapshots after a list of `accept` calls. */
  ghost function AcceptAll(calls: seq<Module>, max: nat): map<string, Snapshot> {
    if calls == [] then map[] else Accepted(AcceptAll(calls[..|calls| - 1], max), calls[|calls| - 1], max)
  }

  ghost function StoredItems(snapshots: map<string, Snapshot>, id: string): seq<Item> {
    if id in snapshots then ItemsOf(snapshots[id].resources) else []
  }

  /** Replaying, from nothing, the change sets planned for backend `id` just before each accept;
      nothing once one of those plans raised. */
  ghost function Replay(calls: seq<Module>, id: string, max: nat): Option<Table> {
    if calls == [] then Some(map[])
    else
      var init, m := calls[..|calls| - 1], calls[|calls| - 1];
      var before := Replay(init, id, max);
      if !(WellFormed(m, max) && m.id == id) || before.None? then before
      else
        var plan := PlanFor(AcceptAll(init, max), m);
        if plan.Planned? then Some(ApplyOps(before.value, plan.ops)) else None
  }

  /** No module accepted for `id` has null resources. */
  ghost predicate NoneNull(calls: seq<Module>, id: string, max: nat) {
    forall i :: 0 <= i < |calls| && WellFormed(calls[i], max) && calls[i].id == id ==> !calls[i].resources.Null?
  }

  ghost function Accepts(calls: seq<Module>, id: string, max: nat): nat {
    if calls == [] then 0
    else
      var m := calls[|calls| - 1];
      Accepts(calls[..|calls| - 1], id, max) + if WellFormed(m, max) && m.id == id then 1 else 0
  }

  lemma {:induction false} NoneNullSnoc(calls: seq<Module>, id: string, max: nat)
    requires calls != []
    ensures var m := calls[|calls| - 1];
            NoneNull(calls, id, max) <==>
              NoneNull(calls[..|calls| - 1], id, max) && (WellFormed(m, max) && m.id == id ==> !m.resources.Null?)
  {
    var init := calls[..|calls| - 1];
    forall i | 0 <= i < |init| ensures init[i] == calls[i] {}
    if NoneNull(init, id, max) && (WellFormed(calls[|init|], max) && calls[|init|].id == id ==> !calls[|init|].resources.Null?) {
      forall i | 0 <= i < |calls| && WellFormed(calls[i], max) && calls[i].id == id ensures !calls[i].resources.Null? {
        if i < |init| { assert init[i] == calls[i]; }
      }
    }
  }

  /** A backend is stored with null resources only if its last accepted module had them. */
  lemma {:induction false} StoredNotNull(calls: seq<Module>, id: string, max: nat)
    requires NoneNull(calls, id, max) && id in AcceptAll(calls, max)
    ensures !AcceptAll(calls, max)[id].resources.Null?
  {
    if calls != [] {
      var m := calls[|calls| - 1];
      NoneNullSnoc(calls, id, max);
      if !(WellFormed(m, max) && m.id == id) { StoredNotNull(calls[..|calls| - 1], id, max); }
    }
  }

  /** Over every history of `accept` calls: the planned change sets can be replayed if and only if no
      accepted module had null resources, and then they rebuild the stored resources. */
  lemma {:induction false} ReplayRebuildsSnapshots(calls: seq<Module>, id: string, max: nat)
    ensures Replay(calls, id, max).Some? <==> NoneNull(calls, id, max)
    ensures Replay(calls, id, max).Some? ==>
              Replay(calls, id, max).value == TableOf(StoredItems(AcceptAll(calls, max), id))
  {
    if calls != [] {
      var init, m := calls[..|calls| - 1], calls[|calls| - 1];
      ReplayRebuildsSnapshots(init, id, max);
      NoneNullSnoc(calls, id, max);
      if WellFormed(m, max) && m.id == id && NoneNull(init, id, max) {
        if id in AcceptAll(init, max) { StoredNotNull(init, id, max); }
        PlanRebuildsModule(StoredItems(AcceptAll(init, max), id), ItemsOf(m.resources));
      }
    }
  }

  /** The revision of a backend counts its accepted modules; rejected ones change nothing. */
  lemma {:induction false} RevisionCountsAccepts(calls: seq<Module>, id: string, max: nat)
    ensures id in AcceptAll(calls, max) <==> Accepts(calls, id, max) > 0
    ensures id in AcceptAll(calls, max) ==> AcceptAll(calls, max)[id].revision == Accepts(calls, id, max)
  {
    if calls != [] { RevisionCountsAccepts(calls[..|calls| - 1], id, max); }
  }

  /** After accepting a module, planning it again gives no operation if and only if its resources are
      not null; with null resources it raises. */
  lemma {:induction false} AcceptThenPlanIsEmpty(snapshots: map<string, Snapshot>, m: Module, max: nat)
    requires WellFormed(m, max)
    ensures var after := Accepted(snapshots, m, max);
            if m.resources.Null? then PlanFor(after, m) == PlanRaises
            else PlanFor(after, m) == Planned(after[m.id].revision, [])
  {
    var items := ItemsOf(m.resources);
    NothingToDo(SortedIds(items, items), TableOf(items));
  }

  /** A resource whose `spec` is a truthy non-object makes `validate` die instead of reporting it. */
  lemma {:induction false} ScalarSpecCrashes(m: Module, max: nat)
    requires max > 0 && m.Module?
    requires m.resources == Array([Resource("r", true, SpecNotObject, 0)])
    ensures Crashes(ById(Window(m, max)))
  {
    var items := Window(m, max);
    assert items[..0] == [];
    assert Strip("r") == "r";
    assert ById(items) == map["r" := items[0]];
    assert "r" in ById(items);
  }

  /** Null resources are accepted, after which every plan for that backend raises. */
  lemma {:induction false} NullResourcesAreWellFormed(id: string, max: nat)
    requires GoodLength(id, 128)
    ensures WellFormed(Module(id, Some(0), Null), max)
  {
    var g := GraphOf(ById([]));
    assert forall v :: Succ(g, v) == [];
    TopologicalHasNoCycle(g, []);
  }
}
