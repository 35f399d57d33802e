/** The depth of modules in the dependency graph, as the artifact viewer shows it
    (lib/artifact-viewer/server.ts).

    A depth-first search with a memo, which gives a module that is being visited depth 0 instead of
    going round a cycle. The reference is the longest path. */
module ModuleDepths {
  datatype Module = Module(resource: string, dependencies: seq<string>)

  /** The modules by resource; of two modules with one resource the later one counts. */
  function ModuleMap(modules: seq<Module>): map<string, Module> {
    if modules == [] then map[]
    else
      var last := modules[|modules| - 1];
      ModuleMap(modules[..|modules| - 1])[last.resource := last]
  }

  lemma {:induction false} LaterModuleCounts(modules: seq<Module>, i: nat)
    requires i < |modules| && forall j :: i < j < |modules| ==> modules[j].resource != modules[i].resource
    ensures modules[i].resource in ModuleMap(modules) && ModuleMap(modules)[modules[i].resource] == modules[i]
  {
    var n := |modules| - 1;
    if i < n {
      LaterModuleCounts(modules[..n], i);
    }
  }

  predicate Edge(g: map<string, Module>, x: string, y: string) {
    x in g && y in g && y in g[x].dependencies
  }

  /** A path along dependencies, of one or more modules. */
  ghost predicate Path(g: map<string, Module>, p: seq<string>) {
    && p != []
    && (forall i :: 0 <= i < |p| ==> p[i] in g)
    && (forall i :: 0 < i < |p| ==> Edge(g, p[i - 1], p[i]))
  }

  ghost predicate Acyclic(g: map<string, Module>) {
    forall p :: Path(g, p) && |p| > 1 ==> p[0] != p[|p| - 1]
  }

  /** The longest path that starts at `x` has `d` edges. */
  ghost predicate LongestPath(g: map<string, Module>, x: string, d: nat) {
    && (exists p :: Path(g, p) && p[0] == x && |p| == d + 1)
    && (forall p :: Path(g, p) && p[0] == x ==> |p| <= d + 1)
  }

  lemma LongestPathIsUnique(g: map<string, Module>, x: string, d: nat, e: nat)
    requires LongestPath(g, x, d) && LongestPath(g, x, e)
    ensures d == e
  {
  }

  /** The longest path from a module is one longer than the longest from any of its dependencies. */
  lemma LongestFromDependencies(g: map<string, Module>, x: string, depths: map<string, nat>, best: nat)
    requires x in g
    requires forall y :: Edge(g, x, y) ==> y in depths && LongestPath(g, y, depths[y]) && depths[y] + 1 <= best
    requires best == 0 || exists y :: Edge(g, x, y) && best == depths[y] + 1
    ensures LongestPath(g, x, best)
  {
    forall p | Path(g, p) && p[0] == x ensures |p| <= best + 1 {
      if |p| > 1 {
        assert Edge(g, p[0], p[1]);
        var rest := p[1..];
        forall i | 0 < i < |rest| ensures Edge(g, rest[i - 1], rest[i]) {
          assert Edge(g, p[i], p[i + 1]);
        }
        assert Path(g, rest);
      }
    }
    if best == 0 {
      assert Path(g, [x]);
    } else {
      var y :| Edge(g, x, y) && best == depths[y] + 1;
      var q :| Path(g, q) && q[0] == y && |q| == depths[y] + 1;
      var p := [x] + q;
      forall i | 0 < i < |p| ensures Edge(g, p[i - 1], p[i]) {
        if i > 1 {
          assert p[i - 1] == q[i - 2] && p[i] == q[i - 1] && Edge(g, q[i - 2], q[i - 1]);
        }
      }
      assert Path(g, p);
    }
  }

  /** A dependency on a module that is being visited closes a cycle. */
  lemma BackEdgeIsCycle(g: map<string, Module>, stack: seq<string>, x: string)
    requires stack == [] || Path(g, stack)
    requires x in stack && Edge(g, stack[|stack| - 1], x)
    ensures !Acyclic(g)
  {
    var i :| 0 <= i < |stack| && stack[i] == x;
    var cycle := stack[i..] + [x];
    forall j | 0 < j < |cycle| ensures Edge(g, cycle[j - 1], cycle[j]) {
      if j < |cycle| - 1 {
        assert Edge(g, stack[i + j - 1], stack[i + j]);
      }
    }
    assert Path(g, cycle);
  }

  /** Depths that descend along every edge leave no room for a cycle. */
  lemma {:induction false} DescendingPath(g: map<string, Module>, depths: map<string, nat>, p: seq<string>)
    requires Path(g, p) && |p| > 1
    requires forall x :: x in g ==> x in depths
    requires forall x, y :: Edge(g, x, y) ==> depths[x] > depths[y]
    ensures depths[p[0]] > depths[p[|p| - 1]]
  {
    var n := |p| - 1;
    assert Edge(g, p[n - 1], p[n]);
    if n > 1 {
      var q := p[..n];
      forall i | 0 < i < |q| ensures Edge(g, q[i - 1], q[i]) {
        assert Edge(g, p[i - 1], p[i]);
      }
      DescendingPath(g, depths, q);
    }
  }

  /** Every depth is that of the longest path. */
  ghost predicate AllLongest(g: map<string, Module>, depths: map<string, nat>) {
    forall x {:trigger LongestPath(g, x, depths[x])} :: x in depths ==> LongestPath(g, x, depths[x])
  }

  /** No depth exceeds the number of depths. */
  predicate Bounded(depths: map<string, nat>) {
    forall x :: x in depths ==> depths[x] <= |depths|
  }

  /** The modules that are being visited lie on a path. */
  ghost predicate OnStack(g: map<string, Module>, visiting: set<string>, stack: seq<string>) {
    (stack == [] || Path(g, stack)) && visiting == (set x | x in stack)
  }

  /** The state of a search in which `stack` is the path of modules whose depth is being computed. */
  ghost predicate SearchOk(g: map<string, Module>, depths: map<string, nat>, visiting: set<string>, stack: seq<string>) {
    && OnStack(g, visiting, stack)
    && visiting <= g.Keys && depths.Keys <= g.Keys && depths.Keys !! visiting
    && Bounded(depths)
  }

  /** `best` is what the first `n` dependencies make of a depth. */
  ghost predicate BestSoFar(g: map<string, Module>, depths: map<string, nat>, dependencies: seq<string>, n: nat, best: nat)
    requires n <= |dependencies|
  {
    && (forall j :: 0 <= j < n && dependencies[j] in g ==> dependencies[j] in depths && depths[dependencies[j]] + 1 <= best)
    && (best == 0 || exists j :: 0 <= j < n && dependencies[j] in g && dependencies[j] in depths && best == depths[dependencies[j]] + 1)
  }

  predicate Grows(before: map<string, nat>, after: map<string, nat>) {
    |before| <= |after| && forall x :: x in before ==> x in after && after[x] == before[x]
  }

  lemma Enter(g: map<string, Module>, depths: map<string, nat>, visiting: set<string>, stack: seq<string>, x: string)
    requires SearchOk(g, depths, visiting, stack) && x in g && x !in visiting && x !in depths
    requires stack != [] ==> Edge(g, stack[|stack| - 1], x)
    ensures SearchOk(g, depths, visiting + {x}, stack + [x])
  {
    var deeper := stack + [x];
    forall i | 0 < i < |deeper| ensures Edge(g, deeper[i - 1], deeper[i]) {
      if i < |stack| {
        assert Edge(g, stack[i - 1], stack[i]);
      }
    }
  }

  lemma LongestFromBest(g: map<string, Module>, x: string, depths: map<string, nat>, best: nat)
    requires x in g && AllLongest(g, depths)
    requires BestSoFar(g, depths, g[x].dependencies, |g[x].dependencies|, best)
    ensures LongestPath(g, x, best)
  {
    var ds := g[x].dependencies;
    forall y | Edge(g, x, y) ensures y in depths && LongestPath(g, y, depths[y]) && depths[y] + 1 <= best {
      var j :| 0 <= j < |ds| && ds[j] == y;
      assert LongestPath(g, y, depths[y]);
    }
    if best != 0 {
      var j :| 0 <= j < |ds| && ds[j] in g && ds[j] in depths && best == depths[ds[j]] + 1;
      assert Edge(g, x, ds[j]);
    }
    LongestFromDependencies(g, x, depths, best);
  }

  lemma PutKeepsBound(depths: map<string, nat>, x: string, best: nat)
    requires x !in depths && Bounded(depths) && best <= |depths| + 1
    ensures Bounded(depths[x := best])
    ensures Grows(depths, depths[x := best]) && |depths[x := best]| == |depths| + 1
  {
    var after := depths[x := best];
    assert after.Keys == depths.Keys + {x};
    assert |after| == |after.Keys| && |depths| == |depths.Keys|;
  }

  lemma Leave(g: map<string, Module>, depths: map<string, nat>, visiting: set<string>, stack: seq<string>, x: string, best: nat)
    requires SearchOk(g, depths, visiting + {x}, stack + [x]) && x in g && x !in visiting
    requires OnStack(g, visiting, stack) && best <= |depths| + 1
    ensures SearchOk(g, depths[x := best], visiting, stack)
    ensures Grows(depths, depths[x := best]) && |depths[x := best]| == |depths| + 1
  {
    assert x in visiting + {x};
    PutKeepsBound(depths, x, best);
  }

  lemma OneMoreLongest(g: map<string, Module>, depths: map<string, nat>, x: string, best: nat)
    requires AllLongest(g, depths) && LongestPath(g, x, best)
    ensures AllLongest(g, depths[x := best])
  {
    var after := depths[x := best];
    forall y | y in after ensures LongestPath(g, y, after[y]) {
      if y != x {
        assert LongestPath(g, y, depths[y]);
      }
    }
  }

  /** One more dependency is looked at. */
  lemma LookAt(g: map<string, Module>, before: map<string, nat>, after: map<string, nat>, dependencies: seq<string>, n: nat, best: nat)
    requires n < |dependencies| && BestSoFar(g, before, dependencies, n, best) && Grows(before, after)
    requires dependencies[n] in g ==> dependencies[n] in after
    ensures var d := dependencies[n];
      BestSoFar(g, after, dependencies, n + 1, if d in g && after[d] + 1 > best then after[d] + 1 else best)
  {
  }

  /** The search so far, for the module at the end of the stack: `n` of its dependencies have been looked at. */
  ghost predicate Looking(g: map<string, Module>, depths: map<string, nat>, dependencies: seq<string>, n: nat, best: nat)
    requires n <= |dependencies|
  {
    best <= |depths| + 1 && (Acyclic(g) ==> BestSoFar(g, depths, dependencies, n, best))
  }

  /** One more dependency is looked at: it lies outside, or its depth has been found. */
  lemma LookOn(g: map<string, Module>, before: map<string, nat>, after: map<string, nat>, dependencies: seq<string>, n: nat,
               best: nat, below: nat)
    requires n < |dependencies| && Looking(g, before, dependencies, n, best) && Grows(before, after)
    requires dependencies[n] in g ==> below <= |after|
    requires dependencies[n] in g && Acyclic(g) ==> dependencies[n] in after && below == after[dependencies[n]]
    ensures Looking(g, after, dependencies, n + 1, if dependencies[n] in g && below + 1 > best then below + 1 else best)
  {
    if Acyclic(g) {
      LookAt(g, before, after, dependencies, n, best);
    }
  }

  /** All dependencies have been looked at, and the module gets its depth. */
  lemma Finish(g: map<string, Module>, depths: map<string, nat>, visiting: set<string>, stack: seq<string>, x: string, best: nat)
    requires SearchOk(g, depths, visiting + {x}, stack + [x]) && x in g && x !in visiting
    requires OnStack(g, visiting, stack)
    requires Acyclic(g) ==> AllLongest(g, depths)
    requires Looking(g, depths, g[x].dependencies, |g[x].dependencies|, best)
    ensures SearchOk(g, depths[x := best], visiting, stack) && (Acyclic(g) ==> AllLongest(g, depths[x := best]))
    ensures Grows(depths, depths[x := best]) && |depths[x := best]| == |depths| + 1
  {
    if Acyclic(g) {
      LongestFromBest(g, x, depths, best);
      OneMoreLongest(g, depths, x, best);
    }
    Leave(g, depths, visiting, stack, x, best);
  }

  class DepthSearch {
    const modules: map<string, Module>
    var depths: map<string, nat>
    var visiting: set<string>

    ghost predicate Valid(stack: seq<string>)
      reads this
    {
      SearchOk(modules, depths, visiting, stack) && (Acyclic(modules) ==> AllLongest(modules, depths))
    }

    constructor (modules: map<string, Module>)
      ensures this.modules == modules && Valid([]) && depths == map[]
    {
      this.modules := modules;
      depths, visiting := map[], {};
    }

    method DepthFor(resource: string, ghost stack: seq<string>) returns (depth: nat)
      requires resource in modules && Valid(stack)
      requires stack != [] ==> Edge(modules, stack[|stack| - 1], resource)
      modifies this
      ensures Valid(stack) && Grows(old(depths), depths) && depth <= |depths|
      ensures resource !in old(visiting) || Acyclic(modules) ==> resource in depths && depth == depths[resource]
      decreases modules.Keys - visiting, 0
    {
      if resource in depths {
        return depths[resource];
      }
      if resource in visiting {
        BackEdgeIsCycle(modules, stack, resource);
        return 0;
      }
      ghost var around := visiting;
      Enter(modules, depths, visiting, stack, resource);
      visiting := visiting + {resource};
      depth := DeepestBelow(resource, stack + [resource]);
      Finish(modules, depths, around, stack, resource, depth);
      visiting := visiting - {resource};
      assert visiting == around;
      depths := depths[resource := depth];
    }

    /** The loop over the dependencies of the module that is visited. */
    method DeepestBelow(resource: string, ghost stack: seq<string>) returns (depth: nat)
      requires resource in modules && Valid(stack) && stack != [] && stack[|stack| - 1] == resource
      modifies this
      ensures Valid(stack) && visiting == old(visiting) && Grows(old(depths), depths)
      ensures Looking(modules, depths, modules[resource].dependencies, |modules[resource].dependencies|, depth)
      decreases modules.Keys - visiting, 1
    {
      depth := 0;
      var dependencies := modules[resource].dependencies;
      var i := 0;
      while i < |dependencies|
        invariant 0 <= i <= |dependencies|
        invariant visiting == old(visiting) && Valid(stack) && Grows(old(depths), depths)
        invariant Looking(modules, depths, dependencies, i, depth)
      {
        ghost var before, soFar := depths, depth;
        var below := 0;
        if dependencies[i] in modules {
          below := DepthFor(dependencies[i], stack);
          depth := if below + 1 > depth then below + 1 else depth;
        }
        LookOn(modules, before, depths, dependencies, i, soFar, below);
        i := i + 1;
      }
    }
  }

  /** The first `n` modules have got their depths. */
  ghost predicate Covered(modules: seq<Module>, n: nat, depths: map<string, nat>)
    requires n <= |modules|
  {
    forall j :: 0 <= j < n ==> modules[j].resource in depths
  }

  lemma CoverMore(modules: seq<Module>, n: nat, before: map<string, nat>, after: map<string, nat>)
    requires n < |modules| && Covered(modules, n, before) && Grows(before, after) && modules[n].resource in after
    ensures Covered(modules, n + 1, after)
  {
  }

  lemma ModuleIsInMap(modules: seq<Module>, i: nat)
    requires i < |modules|
    ensures modules[i].resource in ModuleMap(modules)
  {
    ModuleMapKeys(modules);
  }

  /** The longest dependency path decides the depth on every graph without cycles, and the depths tell
      whether there is a cycle: there is none exactly if every dependency lies strictly deeper down. On
      every graph, the depth of a module is at most the number of modules. */
  method Depths(modules: seq<Module>) returns (depths: map<string, nat>)
    ensures var g := ModuleMap(modules);
      && depths.Keys == g.Keys
      && (forall x :: x in g ==> depths[x] <= |g|)
      && (Acyclic(g) ==> AllLongest(g, depths))
      && (Acyclic(g) <==> forall x, y :: Edge(g, x, y) ==> depths[x] > depths[y])
  {
    var g := ModuleMap(modules);
    var search := new DepthSearch(g);
    var i := 0;
    while i < |modules|
      invariant 0 <= i <= |modules|
      invariant fresh(search) && search.modules == g && search.Valid([])
      invariant Covered(modules, i, search.depths)
    {
      ModuleIsInMap(modules, i);
      ghost var before := search.depths;
      var depth := search.DepthFor(modules[i].resource, []);
      CoverMore(modules, i, before, search.depths);
      i := i + 1;
    }
    depths := search.depths;
    SearchedAll(modules, depths, search.visiting);
  }

  /** What a finished search that has met every module has found. */
  lemma SearchedAll(modules: seq<Module>, depths: map<string, nat>, visiting: set<string>)
    requires var g := ModuleMap(modules); SearchOk(g, depths, visiting, []) && (Acyclic(g) ==> AllLongest(g, depths))
    requires Covered(modules, |modules|, depths)
    ensures var g := ModuleMap(modules);
      && depths.Keys == g.Keys
      && (forall x :: x in g ==> depths[x] <= |g|)
      && (Acyclic(g) ==> AllLongest(g, depths))
      && (Acyclic(g) <==> forall x, y :: Edge(g, x, y) ==> depths[x] > depths[y])
  {
    var g := ModuleMap(modules);
    ModuleMapKeys(modules);
    assert depths.Keys == g.Keys;
    assert |depths| == |depths.Keys| && |g| == |g.Keys|;
    DepthsTellCycles(g, depths);
  }

  lemma {:induction false} ModuleMapKeys(modules: seq<Module>)
    ensures ModuleMap(modules).Keys == set i | 0 <= i < |modules| :: modules[i].resource
  {
    if modules != [] {
      ModuleMapKeys(modules[..|modules| - 1]);
    }
  }

  lemma DepthsTellCycles(g: map<string, Module>, depths: map<string, nat>)
    requires depths.Keys == g.Keys
    requires Acyclic(g) ==> AllLongest(g, depths)
    ensures Acyclic(g) <==> forall x, y :: Edge(g, x, y) ==> depths[x] > depths[y]
  {
    if Acyclic(g) {
      forall x, y | Edge(g, x, y) ensures depths[x] > depths[y] {
        assert LongestPath(g, x, depths[x]) && LongestPath(g, y, depths[y]);
        var q :| Path(g, q) && q[0] == y && |q| == depths[y] + 1;
        var p := [x] + q;
        forall i | 0 < i < |p| ensures Edge(g, p[i - 1], p[i]) {
          if i > 1 {
            assert Edge(g, q[i - 2], q[i - 1]);
          }
        }
        assert Path(g, p) && p[0] == x;
      }
    }
    if forall x, y :: Edge(g, x, y) ==> depths[x] > depths[y] {
      forall p | Path(g, p) && |p| > 1 ensures p[0] != p[|p| - 1] {
        DescendingPath(g, depths, p);
      }
    }
  }

  /** The modules of one depth, in their order. */
  function OfDepth(modules: seq<Module>, depths: map<string, nat>, depth: nat): seq<Module> {
    if modules == [] then []
    else
      var last := modules[|modules| - 1];
      OfDepth(modules[..|modules| - 1], depths, depth) +
      if (if last.resource in depths then depths[last.resource] else 0) == depth then [last] else []
  }

  lemma OfDepthAppend(modules: seq<Module>, m: Module, depths: map<string, nat>, depth: nat)
    ensures OfDepth(modules + [m], depths, depth) == OfDepth(modules, depths, depth) + OfDepth([m], depths, depth)
  {
    assert (modules + [m])[..|modules|] == modules && [m][..0] == [];
  }

  /** A module is in the group of its depth, or of depth 0 if it has none, */
  lemma OfDepthOfOne(m: Module, depths: map<string, nat>, depth: nat)
    ensures m.resource in depths ==> OfDepth([m], depths, depth) == if depths[m.resource] == depth then [m] else []
    ensures m.resource !in depths ==> OfDepth([m], depths, depth) == if depth == 0 then [m] else []
  {
    assert [m][..0] == [];
  }

  /** and groups keep the order of the modules. */
  lemma {:induction false} OfDepthOfSum(a: seq<Module>, b: seq<Module>, depths: map<string, nat>, depth: nat)
    ensures OfDepth(a + b, depths, depth) == OfDepth(a, depths, depth) + OfDepth(b, depths, depth)
  {
    if b == [] {
      assert a + b == a;
    } else {
      var n := |b| - 1;
      OfDepthOfSum(a, b[..n], depths, depth);
      OfDepthAppend(a + b[..n], b[n], depths, depth);
      OfDepthAppend(b[..n], b[n], depths, depth);
      LastApart(a, b);
      Regroup(OfDepth(a, depths, depth), OfDepth(b[..n], depths, depth), OfDepth([b[n]], depths, depth));
    }
  }

  lemma LastApart<T>(a: seq<T>, b: seq<T>)
    requires b != []
    ensures a + b == a + b[..|b| - 1] + [b[|b| - 1]] && b == b[..|b| - 1] + [b[|b| - 1]]
  {
  }

  lemma Regroup<T>(a: seq<T>, b: seq<T>, c: seq<T>)
    ensures a + b + c == a + (b + c)
  {
  }

  /** The groups that are shown, before each is sorted by name: exactly the modules of each depth. */
  method GroupModulesByDepth(modules: seq<Module>, depths: map<string, nat>) returns (groups: map<nat, seq<Module>>)
    ensures forall d: nat :: (d in groups <==> OfDepth(modules, depths, d) != []) &&
                             (d in groups ==> groups[d] == OfDepth(modules, depths, d))
  {
    groups := map[];
    var i := 0;
    while i < |modules|
      invariant 0 <= i <= |modules|
      invariant forall d: nat :: (d in groups <==> OfDepth(modules[..i], depths, d) != []) &&
                                 (d in groups ==> groups[d] == OfDepth(modules[..i], depths, d))
    {
      assert modules[..i + 1][..i] == modules[..i];
      var depth := if modules[i].resource in depths then depths[modules[i].resource] else 0;
      groups := groups[depth := (if depth in groups then groups[depth] else []) + [modules[i]]];
      i := i + 1;
    }
    assert modules[..i] == modules;
  }
}
