/** Validation of a stage graph: Kahn's algorithm with the smallest ready index first. */
module StageGraph {
  import opened Common

  datatype Stage = Stage(name: string, deps: seq<string>)

  datatype GraphError =
    | DuplicateName(name: string)
    | UnknownDependency(stage: string, dependency: string)
    | Cyclic

  datatype Plan = Plan(order: seq<nat>, dependents: seq<seq<nat>>, counts: seq<nat>)

  // ----- names -----

  /** The position of a name, or the number of stages. */
  function IndexOf(stages: seq<Stage>, name: string): (i: nat)
    ensures i <= |stages|
    ensures i < |stages| ==> stages[i].name == name
    ensures forall j :: 0 <= j < i ==> stages[j].name != name
  {
    if stages == [] || stages[0].name == name then 0 else 1 + IndexOf(stages[1..], name)
  }

  predicate HasName(stages: seq<Stage>, name: string) {
    IndexOf(stages, name) < |stages|
  }

  predicate UniqueNames(stages: seq<Stage>) {
    forall i, j :: 0 <= i < j < |stages| ==> stages[i].name != stages[j].name
  }

  predicate KnownDeps(stages: seq<Stage>, deps: seq<string>) {
    forall k :: 0 <= k < |deps| ==> HasName(stages, deps[k])
  }

  predicate AllKnown(stages: seq<Stage>) {
    forall i :: 0 <= i < |stages| ==> KnownDeps(stages, stages[i].deps)
  }

  /** The dependencies of a stage, as positions; a repeated dependency is repeated. */
  function Deps(stages: seq<Stage>, deps: seq<string>): (r: seq<nat>)
    ensures |r| == |deps| && forall k :: 0 <= k < |r| ==> r[k] == IndexOf(stages, deps[k])
  {
    seq(|deps|, k requires 0 <= k < |deps| => IndexOf(stages, deps[k]))
  }

  /** A graph, by the dependencies of each node. */
  type Graph = seq<seq<nat>>

  function GraphOf(stages: seq<Stage>): (g: Graph)
    ensures |g| == |stages| && forall i :: 0 <= i < |g| ==> g[i] == Deps(stages, stages[i].deps)
  {
    seq(|stages|, i requires 0 <= i < |stages| => Deps(stages, stages[i].deps))
  }

  // ----- graphs -----

  predicate WellFormed(g: Graph) {
    forall i, d :: 0 <= i < |g| && d in g[i] ==> d < |g|
  }

  /** A path along dependencies. */
  predicate Walk(g: Graph, path: seq<nat>) {
    && (forall k :: 0 <= k < |path| ==> path[k] < |g|)
    && (forall k :: 0 < k < |path| ==> path[k] in g[path[k - 1]])
  }

  predicate Cycle(g: Graph, path: seq<nat>) {
    2 <= |path| && path[0] == path[|path| - 1] && Walk(g, path)
  }

  ghost predicate Acyclic(g: Graph) {
    forall path: seq<nat> :: !Cycle(g, path)
  }

  predicate Covers(done: seq<nat>, deps: seq<nat>) {
    forall d :: d in deps ==> d in done
  }

  /** A stage that is not done, while everything it depends on is. */
  predicate Available(g: Graph, done: seq<nat>, i: nat) {
    i < |g| && i !in done && Covers(done, g[i])
  }

  /** Every stage once, after all its dependencies. */
  ghost predicate Topological(g: Graph, order: seq<nat>) {
    && |order| == |g| && Distinct(order)
    && (forall k :: 0 <= k < |order| ==> Available(g, order[..k], order[k]))
  }

  ghost predicate LeastAvailable(g: Graph, done: seq<nat>, i: nat) {
    Available(g, done, i) && forall j :: Available(g, done, j) ==> i <= j
  }

  /** Each stage is the least one available after the stages before it. */
  ghost predicate Greedy(g: Graph, order: seq<nat>) {
    forall k :: 0 <= k < |order| ==> LeastAvailable(g, order[..k], order[k])
  }

  /** Equal, or smaller where they first differ. */
  ghost predicate LexAtMost(a: seq<nat>, b: seq<nat>) {
    a == b || exists k: nat :: FirstDifference(a, b, k) && a[k] < b[k]
  }

  ghost predicate FirstDifference(a: seq<nat>, b: seq<nat>, k: nat) {
    k < |a| && k < |b| && a[..k] == b[..k] && a[k] != b[k]
  }

  // ----- orders and cycles -----

  function Below(n: nat): (r: set<nat>)
    ensures |r| == n && forall i: nat :: i in r <==> i < n
  {
    if n == 0 then {} else Below(n - 1) + {n - 1}
  }

  lemma {:induction false} SubsetCount(a: set<nat>, b: set<nat>)
    requires a <= b
    ensures |a| <= |b|
    ensures |a| == |b| ==> a == b
    decreases a
  {
    if a == {} {
      assert |b| == 0 ==> b == {};
    } else {
      var x :| x in a;
      SubsetCount(a - {x}, b - {x});
    }
  }

  lemma DistinctBounded(s: seq<nat>, n: nat)
    requires Distinct(s) && forall k :: 0 <= k < |s| ==> s[k] < n
    ensures |s| <= n
    ensures |s| == n ==> forall i: nat :: i < n ==> i in s
  {
    DistinctCount(s);
    SubsetCount(Elements(s), Below(n));
  }

  /** A walk backwards through an order goes to earlier and earlier positions. */
  lemma {:induction false} WalkDescends(g: Graph, order: seq<nat>, path: seq<nat>, first: nat, last: nat)
    requires Topological(g, order) && Walk(g, path) && 2 <= |path|
    requires first < |order| && order[first] == path[0] && last < |order| && order[last] == path[|path| - 1]
    ensures last < first
  {
    assert path[1] in g[path[0]];
    assert path[1] in order[..first];
    var k :| 0 <= k < first && order[..first][k] == path[1];
    if |path| > 2 {
      var rest := path[1..];
      assert forall k :: 0 < k < |rest| ==> rest[k] in g[rest[k - 1]] by {
        assert forall k :: 0 < k < |rest| ==> path[k + 1] in g[path[k]];
      }
      WalkDescends(g, order, rest, k, last);
    } else {
      assert order[k] == order[last];
    }
  }

  lemma OrderedIsAcyclic(g: Graph, order: seq<nat>)
    requires Topological(g, order)
    ensures Acyclic(g)
  {
    forall path: seq<nat>
      ensures !Cycle(g, path)
    {
      if Cycle(g, path) {
        DistinctBounded(order, |g|);
        assert path[0] in order;
        var first :| 0 <= first < |order| && order[first] == path[0];
        WalkDescends(g, order, path, first, first);
        assert false;
      }
    }
  }

  predicate Waits(g: Graph, done: seq<nat>, i: nat) {
    i < |g| && !Covers(done, g[i])
  }

  /** Every stage left over depends on a stage left over. */
  ghost predicate Blocked(g: Graph, done: seq<nat>) {
    forall i: nat :: i < |g| && i !in done ==> Waits(g, done, i)
  }

  lemma WalkLonger(g: Graph, start: nat, path: seq<nat>)
    requires Walk(g, path) && path != [] && start < |g| && path[0] in g[start]
    ensures Walk(g, [start] + path)
  {
  }

  /** In a blocked remainder there are walks of any length. */
  lemma {:induction false} BlockedWalk(g: Graph, done: seq<nat>, start: nat, n: nat) returns (path: seq<nat>)
    requires WellFormed(g) && Blocked(g, done) && start < |g| && start !in done
    ensures |path| == n + 1 && path[0] == start && Walk(g, path)
    decreases n
  {
    path := [start];
    if n > 0 {
      assert Waits(g, done, start);
      var d :| d in g[start] && d !in done;
      var rest := BlockedWalk(g, done, d, n - 1);
      WalkLonger(g, start, rest);
      path := [start] + rest;
    }
  }

  lemma {:induction false} RepeatIn(path: seq<nat>, n: nat) returns (i: nat, j: nat)
    requires n < |path| && forall k :: 0 <= k < |path| ==> path[k] < n
    ensures i < j < |path| && path[i] == path[j]
  {
    if Distinct(path) {
      DistinctBounded(path, n);
      assert false;
    }
    i, j :| 0 <= i < j < |path| && path[i] == path[j];
  }

  lemma BlockedIsCyclic(g: Graph, done: seq<nat>, start: nat)
    requires WellFormed(g) && Blocked(g, done) && start < |g| && start !in done
    ensures !Acyclic(g)
  {
    var path := BlockedWalk(g, done, start, |g|);
    var i, j := RepeatIn(path, |g|);
    CycleWithin(g, path, i, j);
  }

  lemma CycleWithin(g: Graph, path: seq<nat>, i: nat, j: nat)
    requires Walk(g, path) && i < j < |path| && path[i] == path[j]
    ensures Cycle(g, path[i..j + 1])
  {
    var cycle := path[i..j + 1];
    forall k | 0 < k < |cycle|
      ensures cycle[k] in g[cycle[k - 1]]
    {
      assert path[i + k] in g[path[i + k - 1]];
    }
  }

  /** A greedy order comes before every other order. */
  lemma GreedyIsLeast(g: Graph, order: seq<nat>, other: seq<nat>)
    requires Topological(g, order) && Greedy(g, order) && Topological(g, other)
    ensures LexAtMost(order, other)
  {
    if order != other {
      var at :| 0 <= at < |order| && order[at] != other[at];
      var k := FirstDifferent(order, other, at);
      assert Available(g, other[..k], other[k]);
      assert LeastAvailable(g, order[..k], order[k]);
    }
  }

  lemma {:induction false} FirstDifferent(a: seq<nat>, b: seq<nat>, at: nat) returns (k: nat)
    requires at < |a| && at < |b| && a[at] != b[at]
    ensures FirstDifference(a, b, k)
    decreases at
  {
    if a[..at] == b[..at] {
      k := at;
    } else {
      var before :| 0 <= before < at && a[..at][before] != b[..at][before];
      k := FirstDifferent(a, b, before);
    }
  }

  // ----- the counts of the algorithm -----

  /** How many entries of a dependency list are not done, repeats included. */
  function Missing(deps: seq<nat>, done: seq<nat>): nat {
    if deps == [] then 0 else (if deps[0] in done then 0 else 1) + Missing(deps[1..], done)
  }

  function Count(s: seq<nat>, x: nat): nat {
    if s == [] then 0 else (if s[0] == x then 1 else 0) + Count(s[1..], x)
  }

  lemma {:induction false} MissingNone(deps: seq<nat>, done: seq<nat>)
    ensures Missing(deps, done) == 0 <==> Covers(done, deps)
  {
    if deps != [] {
      MissingNone(deps[1..], done);
      assert deps == [deps[0]] + deps[1..];
    }
  }

  lemma {:induction false} MissingAll(deps: seq<nat>)
    ensures Missing(deps, []) == |deps|
  {
    if deps != [] {
      MissingAll(deps[1..]);
    }
  }

  lemma {:induction false} MissingDone(deps: seq<nat>, done: seq<nat>, x: nat)
    requires x !in done
    ensures Missing(deps, done) == Missing(deps, done + [x]) + Count(deps, x)
  {
    if deps != [] {
      MissingDone(deps[1..], done, x);
    }
  }

  lemma {:induction false} CountAppend(s: seq<nat>, y: nat, x: nat)
    ensures Count(s + [y], x) == Count(s, x) + if y == x then 1 else 0
  {
    if s != [] {
      CountAppend(s[1..], y, x);
      assert (s + [y])[1..] == s[1..] + [y];
    }
  }

  lemma {:induction false} CountMember(s: seq<nat>, x: nat)
    ensures Count(s, x) > 0 <==> x in s
  {
    if s != [] {
      CountMember(s[1..], x);
      assert s == [s[0]] + s[1..];
    }
  }

  lemma {:induction false} CountMonotone(s: seq<nat>, k: nat, x: nat)
    requires k <= |s|
    ensures Count(s[..k], x) <= Count(s, x)
    decreases |s| - k
  {
    if k < |s| {
      CountMonotone(s, k + 1, x);
      assert s[..k + 1] == s[..k] + [s[k]];
      CountAppend(s[..k], s[k], x);
    } else {
      assert s[..k] == s;
    }
  }

  // ----- validation -----

  ghost predicate IndexedNames(stages: seq<Stage>, indices: map<string, nat>) {
    && (forall name :: name in indices <==> HasName(stages, name))
    && (forall name :: name in indices ==> indices[name] == IndexOf(stages, name))
  }

  /** The first stage whose name was used before it. */
  ghost predicate FirstDuplicate(stages: seq<Stage>, i: nat, name: string) {
    i < |stages| && UniqueNames(stages[..i]) && stages[i].name == name && HasName(stages[..i], name)
  }

  lemma IndexExtended(stages: seq<Stage>, k: nat, name: string)
    requires k < |stages|
    ensures IndexOf(stages[..k + 1], name)
            == if HasName(stages[..k], name) then IndexOf(stages[..k], name)
               else if stages[k].name == name then k else k + 1
  {
    var i, j := IndexOf(stages[..k + 1], name), IndexOf(stages[..k], name);
    assert j < k ==> stages[..k + 1][j].name == name;
    assert stages[..k + 1][k] == stages[k];
  }

  lemma IndexedNext(stages: seq<Stage>, k: nat, indices: map<string, nat>)
    requires k < |stages| && UniqueNames(stages[..k]) && IndexedNames(stages[..k], indices)
    ensures stages[k].name in indices ==> FirstDuplicate(stages, k, stages[k].name)
    ensures stages[k].name !in indices
            ==> UniqueNames(stages[..k + 1]) && IndexedNames(stages[..k + 1], indices[stages[k].name := k])
  {
    var name := stages[k].name;
    forall other
      ensures IndexOf(stages[..k + 1], other)
              == if HasName(stages[..k], other) then IndexOf(stages[..k], other) else if name == other then k else k + 1
    {
      IndexExtended(stages, k, other);
    }
    if name !in indices {
      assert !HasName(stages[..k], name);
      forall i | 0 <= i < k
        ensures stages[i].name != name
      {
        assert stages[..k][i] == stages[i];
      }
    }
  }

  method IndexNames(stages: seq<Stage>) returns (r: Result<map<string, nat>, string>)
    ensures r.Ok? ==> UniqueNames(stages) && IndexedNames(stages, r.value)
    ensures r.Err? ==> exists i: nat :: FirstDuplicate(stages, i, r.error)
  {
    var indices: map<string, nat> := map[];
    assert IndexedNames(stages[..0], indices);
    hide IndexedNames, UniqueNames, FirstDuplicate;
    for index := 0 to |stages|
      invariant UniqueNames(stages[..index]) && IndexedNames(stages[..index], indices)
    {
      IndexedNext(stages, index, indices);
      var name := stages[index].name;
      if name in indices {
        assert FirstDuplicate(stages, index, name);
        return Err(name);
      }
      indices := indices[name := index];
    }
    assert stages[..|stages|] == stages;
    return Ok(indices);
  }

  /** dependents[d] lists a stage once for every time that it depends on d. */
  ghost predicate Linked(g: Graph, dependents: seq<seq<nat>>) {
    && |dependents| == |g|
    && (forall d: nat, i: nat :: d < |g| && i < |g| ==> Count(dependents[d], i) == Count(g[i], d))
    && (forall d: nat, i: nat :: d < |g| && i in dependents[d] ==> i < |g|)
  }

  ghost predicate FirstUnknownOf(stages: seq<Stage>, i: nat, k: nat, dependency: string) {
    && i < |stages| && k < |stages[i].deps| && KnownDeps(stages, stages[i].deps[..k])
    && stages[i].deps[k] == dependency && !HasName(stages, dependency)
  }

  /** The first dependency that no stage bears the name of. */
  ghost predicate FirstUnknown(stages: seq<Stage>, i: nat, k: nat, stage: string, dependency: string) {
    && FirstUnknownOf(stages, i, k, dependency) && stages[i].name == stage
    && (forall j :: 0 <= j < i ==> KnownDeps(stages, stages[j].deps))
  }

  datatype Links = Links(dependents: seq<seq<nat>>, counts: seq<nat>)

  /** How often d must list j when the stages before i and the first k dependencies of stage i have been linked. */
  function Due(g: Graph, i: nat, k: nat, d: nat, j: nat): nat
    requires j < |g| && (j == i ==> k <= |g[i]|)
  {
    if j < i then Count(g[j], d) else if j == i then Count(g[i][..k], d) else 0
  }

  ghost predicate PartlyLinked(g: Graph, dependents: seq<seq<nat>>, i: nat, k: nat) {
    && |dependents| == |g| && (i < |g| ==> k <= |g[i]|)
    && (forall d: nat, j: nat :: d < |g| && j < |g| ==> Count(dependents[d], j) == Due(g, i, k, d, j))
    && (forall d: nat, j: nat :: d < |g| && j in dependents[d] ==> j < |g|)
  }

  lemma LinkNone(g: Graph, dependents: seq<seq<nat>>)
    requires |dependents| == |g| && forall d :: 0 <= d < |g| ==> dependents[d] == []
    ensures PartlyLinked(g, dependents, 0, 0)
  {
    forall d: nat, j: nat | d < |g| && j < |g|
      ensures Count(dependents[d], j) == Due(g, 0, 0, d, j)
    {
      assert dependents[d] == [];
    }
  }

  lemma LinkNext(g: Graph, dependents: seq<seq<nat>>, i: nat, k: nat)
    requires i < |g| && k < |g[i]| && g[i][k] < |g| && PartlyLinked(g, dependents, i, k)
    ensures PartlyLinked(g, dependents[g[i][k] := dependents[g[i][k]] + [i]], i, k + 1)
  {
    var d0 := g[i][k];
    var dependents' := dependents[d0 := dependents[d0] + [i]];
    assert g[i][..k + 1] == g[i][..k] + [d0];
    forall d: nat, j: nat | d < |g| && j < |g|
      ensures Count(dependents'[d], j) == Due(g, i, k + 1, d, j)
    {
      CountAppend(dependents[d0], i, j);
      CountAppend(g[i][..k], d0, d);
      assert Count(dependents[d], j) == Due(g, i, k, d, j);
    }
    forall d: nat, j: nat | d < |g| && j in dependents'[d]
      ensures j < |g|
    {
      assert j in dependents[d] || j == i;
    }
  }

  lemma StageLinked(g: Graph, dependents: seq<seq<nat>>, i: nat)
    requires i < |g| && PartlyLinked(g, dependents, i, |g[i]|)
    ensures PartlyLinked(g, dependents, i + 1, 0)
  {
    assert g[i][..|g[i]|] == g[i];
    forall d: nat, j: nat | d < |g| && j < |g|
      ensures Count(dependents[d], j) == Due(g, i + 1, 0, d, j)
    {
      assert Count(dependents[d], j) == Due(g, i, |g[i]|, d, j);
      assert j == i + 1 ==> g[j][..0] == [];
    }
  }

  lemma LinkAll(g: Graph, dependents: seq<seq<nat>>)
    requires PartlyLinked(g, dependents, |g|, 0)
    ensures Linked(g, dependents)
  {
    forall d: nat, i: nat | d < |g| && i < |g|
      ensures Count(dependents[d], i) == Count(g[i], d)
    {
      assert Count(dependents[d], i) == Due(g, |g|, 0, d, i);
    }
  }

  /** Link one stage to its dependencies, or find the first unknown one. */
  method LinkStage(stages: seq<Stage>, indices: map<string, nat>, index: nat, before: seq<seq<nat>>)
    returns (r: Result<seq<seq<nat>>, string>)
    requires IndexedNames(stages, indices) && index < |stages| && PartlyLinked(GraphOf(stages), before, index, 0)
    ensures r.Ok? ==> KnownDeps(stages, stages[index].deps) && PartlyLinked(GraphOf(stages), r.value, index + 1, 0)
    ensures r.Err? ==> exists k: nat :: FirstUnknownOf(stages, index, k, r.error)
  {
    ghost var g := GraphOf(stages);
    var dependents, deps := before, stages[index].deps;
    for k := 0 to |deps|
      invariant |dependents| == |stages| && PartlyLinked(g, dependents, index, k)
      invariant KnownDeps(stages, deps[..k])
    {
      hide PartlyLinked, IndexOf;
      var dependency := deps[k];
      if dependency !in indices {
        assert FirstUnknownOf(stages, index, k, dependency);
        return Err(dependency);
      }
      var target := indices[dependency];
      LinkNext(g, dependents, index, k);
      dependents := dependents[target := dependents[target] + [index]];
      assert deps[..k + 1] == deps[..k] + [dependency];
    }
    assert deps[..|deps|] == deps;
    StageLinked(g, dependents, index);
    return Ok(dependents);
  }

  /** The first stages depend on known names only. */
  predicate KnownUpTo(stages: seq<Stage>, n: nat)
    requires n <= |stages|
  {
    forall i :: 0 <= i < n ==> KnownDeps(stages, stages[i].deps)
  }

  /** The numbers of dependencies of the first stages. */
  predicate DepCounts(stages: seq<Stage>, counts: seq<nat>, n: nat)
    requires n <= |stages|
  {
    |counts| == n && forall i :: 0 <= i < n ==> counts[i] == |stages[i].deps|
  }

  lemma UnknownFound(stages: seq<Stage>, index: nat, dependency: string)
    requires index < |stages| && KnownUpTo(stages, index)
    requires exists k: nat :: FirstUnknownOf(stages, index, k, dependency)
    ensures exists i: nat, k: nat :: FirstUnknown(stages, i, k, stages[index].name, dependency)
  {
    var k: nat :| FirstUnknownOf(stages, index, k, dependency);
    assert FirstUnknown(stages, index, k, stages[index].name, dependency);
  }

  method LinkStages(stages: seq<Stage>, indices: map<string, nat>) returns (r: Result<Links, GraphError>)
    requires IndexedNames(stages, indices)
    ensures r.Ok? ==> AllKnown(stages) && Linked(GraphOf(stages), r.value.dependents)
    ensures r.Ok? ==> |r.value.counts| == |stages|
                      && forall i :: 0 <= i < |stages| ==> r.value.counts[i] == |stages[i].deps|
    ensures r.Err? ==> r.error.UnknownDependency?
                       && exists i: nat, k: nat :: FirstUnknown(stages, i, k, r.error.stage, r.error.dependency)
  {
    ghost var g := GraphOf(stages);
    var dependents: seq<seq<nat>> := seq(|stages|, _ => []);
    var counts: seq<nat> := [];
    LinkNone(g, dependents);
    hide PartlyLinked, Linked, IndexOf, KnownDeps, FirstUnknown, FirstUnknownOf, IndexedNames;
    for index := 0 to |stages|
      invariant PartlyLinked(g, dependents, index, 0)
      invariant KnownUpTo(stages, index) && DepCounts(stages, counts, index)
    {
      counts := counts + [|stages[index].deps|];
      var linked := LinkStage(stages, indices, index, dependents);
      if linked.Err? {
        UnknownFound(stages, index, linked.error);
        return Err(UnknownDependency(stages[index].name, linked.error));
      }
      dependents := linked.value;
    }
    LinkAll(g, dependents);
    return Ok(Links(dependents, counts));
  }

  // ----- the ready list -----

  function Inserted(s: seq<nat>, x: nat): (r: seq<nat>)
    requires Increasing(s) && x !in s
    ensures Increasing(r) && forall y: nat :: y in r <==> y in s || y == x
  {
    if s == [] || x < s[0] then [x] + s
    else
      var rest := Inserted(s[1..], x);
      IncreasingFront(s, x, rest);
      [s[0]] + rest
  }

  lemma IncreasingFront(s: seq<nat>, x: nat, rest: seq<nat>)
    requires Increasing(s) && s != [] && s[0] <= x && x !in s
    requires Increasing(rest) && forall y: nat :: y in rest <==> y in s[1..] || y == x
    ensures Increasing([s[0]] + rest) && forall y: nat :: y in [s[0]] + rest <==> y in s || y == x
  {
    assert s == [s[0]] + s[1..];
    forall k | 0 <= k < |rest|
      ensures s[0] < rest[k]
    {
      assert rest[k] in rest;
      if rest[k] == x {
        assert s[0] in s;
      }
    }
  }

  /** A list without repeats, in increasing order. */
  function Sorted(s: seq<nat>): (r: seq<nat>)
    requires Distinct(s)
    ensures Increasing(r) && forall y: nat :: y in r <==> y in s
  {
    if s == [] then []
    else
      assert s == [s[0]] + s[1..];
      Inserted(Sorted(s[1..]), s[0])
  }

  // ----- Kahn's algorithm -----

  ghost predicate Counted(g: Graph, remaining: seq<nat>, done: seq<nat>) {
    |remaining| == |g| && forall i :: 0 <= i < |g| ==> remaining[i] == Missing(g[i], done)
  }

  ghost predicate ReadyIs(g: Graph, ready: seq<nat>, done: seq<nat>) {
    Increasing(ready) && forall i: nat :: i in ready <==> Available(g, done, i)
  }

  /** A duplicate-free greedy order whose stages have all their dependencies in it. */
  ghost predicate Ordering(g: Graph, done: seq<nat>) {
    && Distinct(done) && Greedy(g, done)
    && (forall i: nat :: i in done ==> i < |g| && Missing(g[i], done) == 0)
  }

  /** What taking an available stage makes available. */
  lemma AvailableNext(g: Graph, done: seq<nat>, index: nat, i: nat)
    requires Ordering(g, done) && Available(g, done, index) && i < |g|
    ensures Missing(g[i], done) == Missing(g[i], done + [index]) + Count(g[i], index)
    ensures Available(g, done + [index], i)
            <==> (Available(g, done, i) && i != index) || (Count(g[i], index) > 0 && Missing(g[i], done + [index]) == 0)
  {
    MissingDone(g[i], done, index);
    MissingNone(g[i], done);
    MissingNone(g[i], done + [index]);
    MissingNone(g[index], done);
  }

  lemma OrderingNext(g: Graph, done: seq<nat>, index: nat)
    requires Ordering(g, done) && LeastAvailable(g, done, index)
    ensures Ordering(g, done + [index])
  {
    var next := done + [index];
    forall k | 0 <= k < |next|
      ensures LeastAvailable(g, next[..k], next[k])
    {
      assert k < |done| ==> next[..k] == done[..k];
      assert k == |done| ==> next[..k] == done;
    }
    forall i: nat | i in next
      ensures i < |g| && Missing(g[i], next) == 0
    {
      AvailableNext(g, done, index, i);
      MissingNone(g[i], done);
    }
  }

  /** The state of the inner loop after m of the dependents of a stage. */
  ghost predicate Visiting(g: Graph, done: seq<nat>, visited: seq<nat>, remaining: seq<nat>, rest: seq<nat>,
                           ready: seq<nat>)
  {
    && |remaining| == |g|
    && (forall i :: 0 <= i < |g| ==> remaining[i] == Missing(g[i], done) - Count(visited, i))
    && Distinct(ready)
    && (forall i: nat :: i in ready <==> i in rest || (i < |g| && Count(visited, i) > 0 && remaining[i] == 0))
  }

  lemma VisitNext(g: Graph, done: seq<nat>, visited: seq<nat>, remaining: seq<nat>, rest: seq<nat>, ready: seq<nat>,
                  i: nat)
    requires Visiting(g, done, visited, remaining, rest, ready) && i < |g| && i !in rest && 0 < remaining[i]
    ensures Visiting(g, done, visited + [i], remaining[i := remaining[i] - 1], rest,
                     if remaining[i] == 1 then ready + [i] else ready)
  {
    forall j: nat
      ensures Count(visited + [i], j) == Count(visited, j) + if i == j then 1 else 0
    {
      CountAppend(visited, i, j);
    }
  }

  /** Stages that wait for nothing. */
  ghost predicate Unblocked(g: Graph, done: seq<nat>, rest: seq<nat>) {
    Distinct(rest) && forall i: nat :: i in rest ==> i < |g| && Missing(g[i], done) == 0
  }

  /** The next dependent still waits for the stage. */
  lemma VisitOpen(g: Graph, dependents: seq<seq<nat>>, done: seq<nat>, index: nat, m: nat, remaining: seq<nat>,
                  rest: seq<nat>, ready: seq<nat>)
    requires Linked(g, dependents) && index < |g| && index !in done && m < |dependents[index]|
    requires Unblocked(g, done, rest)
    requires Visiting(g, done, dependents[index][..m], remaining, rest, ready)
    ensures var i := dependents[index][m]; i < |g| && i !in rest && 0 < remaining[i]
  {
    var visits := dependents[index];
    var i := visits[m];
    assert i in visits && i < |g|;
    CountMember(visits, i);
    MissingDone(g[i], done, index);
    assert visits[..m + 1] == visits[..m] + [i];
    CountAppend(visits[..m], i, i);
    CountMonotone(visits, m + 1, i);
  }

  /** A list grown by the stages whose last missing dependency was the one just counted off. */
  ghost predicate Grown(g: Graph, done: seq<nat>, index: nat, rest: seq<nat>, ready: seq<nat>) {
    && Distinct(ready)
    && (forall i: nat :: i in ready
          <==> i in rest || (i < |g| && Count(g[i], index) > 0 && Missing(g[i], done + [index]) == 0))
  }

  lemma VisitedReady(g: Graph, dependents: seq<seq<nat>>, done: seq<nat>, index: nat, remaining: seq<nat>,
                     rest: seq<nat>, ready: seq<nat>)
    requires Linked(g, dependents) && index < |g| && index !in done
    requires Visiting(g, done, dependents[index], remaining, rest, ready)
    ensures Counted(g, remaining, done + [index])
    ensures Grown(g, done, index, rest, ready)
  {
    forall i: nat | i < |g|
      ensures remaining[i] == Missing(g[i], done + [index])
      ensures Count(dependents[index], i) == Count(g[i], index)
    {
      MissingDone(g[i], done, index);
    }
  }

  lemma NoneDone(g: Graph, counts: seq<nat>, ready: seq<nat>)
    requires |counts| == |g| && forall i :: 0 <= i < |g| ==> counts[i] == |g[i]|
    requires Increasing(ready) && forall j: nat :: j in ready <==> j < |g| && counts[j] == 0
    ensures Counted(g, counts, []) && ReadyIs(g, ready, [])
  {
    forall i | 0 <= i < |g|
      ensures counts[i] == Missing(g[i], [])
      ensures counts[i] == 0 <==> Covers([], g[i])
    {
      MissingAll(g[i]);
      MissingNone(g[i], []);
    }
  }

  /** The stages without dependencies. */
  method ReadyAtStart(counts: seq<nat>) returns (ready: seq<nat>)
    ensures Increasing(ready) && forall j: nat :: j in ready <==> j < |counts| && counts[j] == 0
  {
    ready := [];
    for i := 0 to |counts|
      invariant Increasing(ready) && forall j: nat :: j in ready <==> j < i && counts[j] == 0
    {
      if counts[i] == 0 {
        assert forall k :: 0 <= k < |ready| ==> ready[k] in ready;
        ready := ready + [i];
      }
    }
  }

  /** Count a finished stage off at its dependents, and add those that have become ready. */
  method CountOff(ghost g: Graph, dependents: seq<seq<nat>>, ghost done: seq<nat>, index: nat, counts: seq<nat>,
                  rest: seq<nat>) returns (remaining: seq<nat>, ready: seq<nat>)
    requires Linked(g, dependents) && index < |g| && index !in done
    requires Counted(g, counts, done) && Unblocked(g, done, rest)
    ensures Counted(g, remaining, done + [index]) && Grown(g, done, index, rest, ready)
  {
    remaining, ready := counts, rest;
    var visits := dependents[index];
    assert Visiting(g, done, visits[..0], remaining, rest, ready);
    hide Linked, Counted, Visiting, Distinct, Unblocked, Grown;
    for m := 0 to |visits|
      invariant Visiting(g, done, visits[..m], remaining, rest, ready) && |remaining| == |g|
    {
      var dependent := visits[m];
      VisitOpen(g, dependents, done, index, m, remaining, rest, ready);
      assert visits[..m + 1] == visits[..m] + [dependent];
      VisitNext(g, done, visits[..m], remaining, rest, ready, dependent);
      remaining := remaining[dependent := remaining[dependent] - 1];
      if remaining[dependent] == 0 {
        ready := ready + [dependent];
      }
    }
    assert visits[..|visits|] == visits;
    VisitedReady(g, dependents, done, index, remaining, rest, ready);
  }

  /** The head of the ready list is the least available stage. */
  lemma HeadIsLeast(g: Graph, ready: seq<nat>, done: seq<nat>)
    requires ReadyIs(g, ready, done) && ready != []
    ensures LeastAvailable(g, done, ready[0]) && Unblocked(g, done, ready[1..])
    ensures forall i: nat :: i in ready[1..] <==> Available(g, done, i) && i != ready[0]
  {
    assert ready == [ready[0]] + ready[1..];
    forall j: nat | Available(g, done, j)
      ensures ready[0] <= j
    {
      assert j in ready;
    }
    forall i: nat | i in ready[1..]
      ensures i < |g| && Missing(g[i], done) == 0
    {
      assert i in ready && Available(g, done, i);
      MissingNone(g[i], done);
    }
  }

  /** What counting off leaves ready is what is available next. */
  lemma GrownReady(g: Graph, done: seq<nat>, index: nat, rest: seq<nat>, ready: seq<nat>)
    requires Ordering(g, done) && Available(g, done, index) && Grown(g, done, index, rest, ready)
    requires forall i: nat :: i in rest <==> Available(g, done, i) && i != index
    ensures ReadyIs(g, Sorted(ready), done + [index])
  {
    forall i: nat
      ensures i in ready <==> Available(g, done + [index], i)
    {
      if i < |g| {
        AvailableNext(g, done, index, i);
      }
    }
  }

  method SortTopologically(ghost g: Graph, dependents: seq<seq<nat>>, counts: seq<nat>) returns (order: seq<nat>)
    requires WellFormed(g) && Linked(g, dependents)
    requires |counts| == |g| && forall i :: 0 <= i < |g| ==> counts[i] == |g[i]|
    ensures Ordering(g, order) && forall i: nat :: !Available(g, order, i)
  {
    var remaining := counts;
    var ready := ReadyAtStart(counts);
    order := [];
    NoneDone(g, counts, ready);
    while ready != []
      invariant Ordering(g, order) && Counted(g, remaining, order) && ReadyIs(g, ready, order)
      decreases |g| - |order|
    {
      HeadIsLeast(g, ready, order);
      OrderingNext(g, order, ready[0]);
      DistinctBounded(order + [ready[0]], |g|);
      var index, rest := ready[0], ready[1..];
      assert LeastAvailable(g, order, index) && Available(g, order, index) && index < |g| && index !in order;
      hide *;
      remaining, ready := CountOff(g, dependents, order, index, remaining, rest);
      GrownReady(g, order, index, rest, ready);
      order := order + [index];
      ready := Sorted(ready);
    }
  }

  // ----- what validation decides -----

  ghost predicate Accepted(stages: seq<Stage>) {
    UniqueNames(stages) && AllKnown(stages) && Acyclic(GraphOf(stages))
  }

  /** What a reported error says of the stages: the first offence of the first kind that there is. */
  ghost predicate Offence(stages: seq<Stage>, error: GraphError) {
    match error
    case DuplicateName(name) => exists i: nat :: FirstDuplicate(stages, i, name)
    case UnknownDependency(stage, dependency) =>
      UniqueNames(stages) && exists i: nat, k: nat :: FirstUnknown(stages, i, k, stage, dependency)
    case Cyclic => UniqueNames(stages) && AllKnown(stages) && !Acyclic(GraphOf(stages))
  }

  lemma GraphWellFormed(stages: seq<Stage>)
    requires AllKnown(stages)
    ensures WellFormed(GraphOf(stages))
  {
    var g := GraphOf(stages);
    forall i, d | 0 <= i < |g| && d in g[i]
      ensures d < |g|
    {
      var k :| 0 <= k < |g[i]| && g[i][k] == d;
      assert KnownDeps(stages, stages[i].deps) && HasName(stages, stages[i].deps[k]);
    }
  }

  /** An ordering that cannot go on is complete exactly when the graph has no cycle. */
  lemma ExhaustedIff(g: Graph, order: seq<nat>)
    requires WellFormed(g) && Ordering(g, order) && forall i: nat :: !Available(g, order, i)
    ensures |order| == |g| <==> Acyclic(g)
    ensures |order| == |g| ==> Topological(g, order)
  {
    DistinctBounded(order, |g|);
    if |order| == |g| {
      assert Topological(g, order);
      OrderedIsAcyclic(g, order);
    } else {
      var start := Absent(g, order);
      forall i: nat | i < |g| && i !in order
        ensures Waits(g, order, i)
      {
        assert !Available(g, order, i);
      }
      BlockedIsCyclic(g, order, start);
    }
  }

  lemma Absent(g: Graph, order: seq<nat>) returns (i: nat)
    requires Distinct(order) && |order| < |g|
    ensures i < |g| && i !in order
  {
    if forall i: nat :: i < |g| ==> i in order {
      DistinctCount(order);
      assert Below(|g|) <= Elements(order);
      SubsetCount(Below(|g|), Elements(order));
      assert false;
    }
    i :| i < |g| && i !in order;
  }

  /**
   Accept exactly the graphs with unique names, known dependencies and no cycle. The order of an accepted graph
   runs every stage once, after all it depends on, and is lexicographically the least such order; the error of a
   refused one names the first offence.
   */
  method ValidateGraph(stages: seq<Stage>) returns (r: Result<Plan, GraphError>)
    ensures r.Ok? <==> Accepted(stages)
    ensures r.Ok? ==> var g := GraphOf(stages);
                      && Topological(g, r.value.order) && Greedy(g, r.value.order)
                      && (forall other :: Topological(g, other) ==> LexAtMost(r.value.order, other))
                      && Linked(g, r.value.dependents)
                      && |r.value.counts| == |g| && (forall i :: 0 <= i < |g| ==> r.value.counts[i] == |g[i]|)
    ensures r.Err? ==> Offence(stages, r.error)
  {
    var named := IndexNames(stages);
    if named.Err? {
      DuplicateRefused(stages, named.error);
      return Err(DuplicateName(named.error));
    }
    var linked := LinkStages(stages, named.value);
    if linked.Err? {
      UnknownRefused(stages, linked.error.stage, linked.error.dependency);
      return Err(linked.error);
    }
    GraphWellFormed(stages);
    var order := SortTopologically(GraphOf(stages), linked.value.dependents, linked.value.counts);
    ExhaustedIff(GraphOf(stages), order);
    if |order| != |stages| {
      return Err(Cyclic);
    }
    forall other | Topological(GraphOf(stages), other)
      ensures LexAtMost(order, other)
    {
      GreedyIsLeast(GraphOf(stages), order, other);
    }
    return Ok(Plan(order, linked.value.dependents, linked.value.counts));
  }

  lemma DuplicateRefused(stages: seq<Stage>, name: string)
    requires exists i: nat :: FirstDuplicate(stages, i, name)
    ensures !UniqueNames(stages)
  {
    var i: nat :| FirstDuplicate(stages, i, name);
    assert stages[..i][IndexOf(stages[..i], name)].name == stages[i].name;
  }

  lemma UnknownRefused(stages: seq<Stage>, stage: string, dependency: string)
    requires exists i: nat, k: nat :: FirstUnknown(stages, i, k, stage, dependency)
    ensures !AllKnown(stages)
  {
    var i: nat, k: nat :| FirstUnknown(stages, i, k, stage, dependency);
    assert !KnownDeps(stages, stages[i].deps);
  }
}
