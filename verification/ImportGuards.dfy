/** A finite import graph, and reachability through the modules a guard is allowed to walk. */
module ImportGraph {

  /** Resolved imports of each readable module; a module outside the map imports nothing. */
  type Graph = map<string, seq<string>>

  function Imports(g: Graph, m: string): seq<string> { if m in g then g[m] else [] }

  /** A chain of imports in which every module after the first may be walked. */
  predicate IsWalk(g: Graph, pass: string -> bool, p: seq<string>)
  {
    && |p| > 0
    && (forall i :: 0 <= i < |p| - 1 ==> p[i + 1] in Imports(g, p[i]))
    && (forall i :: 0 < i < |p| ==> pass(p[i]))
  }

  ghost predicate Reaches(g: Graph, pass: string -> bool, entry: string, m: string)
  {
    exists p :: IsWalk(g, pass, p) && p[0] == entry && p[|p| - 1] == m
  }

  /** A chain from `entry` through walkable modules to `goal`, which itself need not be walkable. */
  predicate IsChainTo(g: Graph, pass: string -> bool, entry: string, goal: string, c: seq<string>)
  {
    && |c| >= 2 && c[0] == entry && c[|c| - 1] == goal
    && IsWalk(g, pass, c[..|c| - 1]) && goal in Imports(g, c[|c| - 2])
  }

  predicate Closed(g: Graph, pass: string -> bool, s: set<string>)
  {
    forall m, i :: m in s && 0 <= i < |Imports(g, m)| && pass(Imports(g, m)[i]) ==> Imports(g, m)[i] in s
  }

  lemma {:induction false} ClosedHoldsWalks(g: Graph, pass: string -> bool, s: set<string>, p: seq<string>)
    requires Closed(g, pass, s) && IsWalk(g, pass, p) && p[0] in s
    ensures p[|p| - 1] in s
  {
    var n := |p| - 1;
    if n > 0 {
      ClosedHoldsWalks(g, pass, s, p[..n]);
      assert p[n - 1 + 1] in Imports(g, p[n - 1]) && pass(p[n]);
    }
  }

  lemma WalkExtends(g: Graph, pass: string -> bool, p: seq<string>, m: string)
    requires IsWalk(g, pass, p) && m in Imports(g, p[|p| - 1]) && pass(m)
    ensures IsWalk(g, pass, p + [m])
  {
    var q := p + [m];
    forall i | 0 <= i < |q| - 1
      ensures q[i + 1] in Imports(g, q[i])
    {
      if i < |p| - 1 { assert p[i + 1] in Imports(g, p[i]); }
    }
  }

  /** Every module the graph mentions, and the entry. */
  ghost function Universe(g: Graph, entry: string): set<string>
  {
    {entry} + set m, i | m in g && 0 <= i < |g[m]| :: g[m][i]
  }

  lemma WalkInUniverse(g: Graph, pass: string -> bool, p: seq<string>)
    requires IsWalk(g, pass, p)
    ensures p[|p| - 1] in Universe(g, p[0])
  {
    var n := |p| - 1;
    if n > 0 {
      assert p[n - 1 + 1] in Imports(g, p[n - 1]);
    }
  }
}

/** The SSR guard: no server-rendered entry may reach a client-only store except through an island. */
module SsrGuard {
  import opened ImportGraph

  const FORBIDDEN_MODULES: set<string> := {
    "lib/api.ts", "lib/auth.ts", "lib/cluster.ts", "lib/dashboard/layout-store.ts", "lib/namespace.ts",
    "lib/pin-store.ts", "lib/resource-counts.ts", "lib/ws.ts",
    "src/lib/api.ts", "src/lib/auth.ts", "src/lib/cluster.ts", "src/lib/dashboard/layout-store.ts",
    "src/lib/namespace.ts", "src/lib/pin-store.ts", "src/lib/resource-counts.ts", "src/lib/ws.ts"
  }

  predicate Forbidden(m: string) { m in FORBIDDEN_MODULES }

  predicate IsIslandPath(path: string) { "src/islands/" <= path || "islands/" <= path }

  /** A module the walk goes through: neither forbidden nor an island. */
  predicate Walkable(m: string) { !Forbidden(m) && !IsIslandPath(m) }

  const STORES := ["api", "auth", "cluster", "dashboard/layout-store", "namespace", "pin-store", "resource-counts", "ws"]

  function OldPath(i: nat): string
    requires i < 8
  {
    "lib/" + STORES[i] + ".ts"
  }

  function NewPath(i: nat): string
    requires i < 8
  {
    "src/lib/" + STORES[i] + ".ts"
  }

  /** One of the eight client-only stores, in the old tree or the new one. */
  ghost predicate IsStore(m: string) { exists i :: 0 <= i < 8 && (m == OldPath(i) || m == NewPath(i)) }

  lemma Paths0()
    ensures OldPath(0) == "lib/api.ts" && NewPath(0) == "src/lib/api.ts"
    ensures OldPath(1) == "lib/auth.ts" && NewPath(1) == "src/lib/auth.ts"
  {
  }

  lemma Paths1()
    ensures OldPath(2) == "lib/cluster.ts" && NewPath(2) == "src/lib/cluster.ts"
  {
  }

  lemma OldLayoutStore()
    ensures OldPath(3) == "lib/dashboard/layout-store.ts"
  {
    var path := OldPath(3);
    assert |path| == 29 && STORES[3] == "dashboard/layout-store";
    assert path[..14] == "lib/dashboard/" && path[14..] == "layout-store.ts";
  }

  lemma NewLayoutStore()
    ensures NewPath(3) == "src/lib/dashboard/layout-store.ts"
  {
    var path := NewPath(3);
    assert |path| == 33 && STORES[3] == "dashboard/layout-store";
    assert path[..18] == "src/lib/dashboard/" && path[18..] == "layout-store.ts";
  }

  lemma Paths2()
    ensures OldPath(4) == "lib/namespace.ts" && NewPath(4) == "src/lib/namespace.ts"
    ensures OldPath(5) == "lib/pin-store.ts" && NewPath(5) == "src/lib/pin-store.ts"
  {
  }

  lemma Paths3()
    ensures OldPath(6) == "lib/resource-counts.ts" && NewPath(6) == "src/lib/resource-counts.ts"
    ensures OldPath(7) == "lib/ws.ts" && NewPath(7) == "src/lib/ws.ts"
  {
  }

  /** The forbidden modules are the eight stores of both trees. */
  lemma ForbiddenIff(m: string)
    ensures Forbidden(m) <==> IsStore(m)
  {
    hide OldPath, NewPath;
    Paths0();
    Paths1();
    OldLayoutStore();
    NewLayoutStore();
    Paths2();
    Paths3();
  }

  /** A module is walked unless it is a store or lies under `islands/` in either tree. */
  lemma WalkableIff(m: string)
    ensures Walkable(m) <==> !IsStore(m) && (forall rest :: m != "islands/" + rest) && (forall rest :: m != "src/islands/" + rest)
  {
    hide IsStore, Forbidden;
    ForbiddenIff(m);
    if "islands/" <= m { assert m == "islands/" + m[8..]; }
    if "src/islands/" <= m { assert m == "src/islands/" + m[12..]; }
  }

  datatype Violation = Violation(entry: string, chain: seq<string>)

  datatype Item = Item(path: string, chain: seq<string>)

  /** The forbidden imports of one module, in order. */
  function Hits(g: Graph, m: string, n: nat): seq<(string, string)>
    requires n <= |Imports(g, m)|
  {
    if n == 0 then []
    else Hits(g, m, n - 1)
         + if Forbidden(Imports(g, m)[n - 1]) then [(m, Imports(g, m)[n - 1])] else []
  }

  /** The forbidden imports of each module of a list, in order. */
  function AllHits(g: Graph, ms: seq<string>): seq<(string, string)>
  {
    if ms == [] then []
    else AllHits(g, ms[..|ms| - 1]) + Hits(g, ms[|ms| - 1], |Imports(g, ms[|ms| - 1])|)
  }

  predicate Sound(g: Graph, entry: string, v: Violation)
  {
    && v.entry == entry && |v.chain| >= 2 && Forbidden(v.chain[|v.chain| - 1])
    && IsChainTo(g, Walkable, entry, v.chain[|v.chain| - 1], v.chain)
  }

  /** The import each violation ends with. */
  function LastImports(vs: seq<Violation>): seq<(string, string)>
  {
    if vs == [] then []
    else
      var c := vs[|vs| - 1].chain;
      LastImports(vs[..|vs| - 1]) + if |c| >= 2 then [(c[|c| - 2], c[|c| - 1])] else []
  }

  predicate StackOk(g: Graph, entry: string, stack: seq<Item>)
  {
    forall i :: 0 <= i < |stack| ==>
      && IsWalk(g, Walkable, stack[i].chain) && stack[i].chain[0] == entry
      && stack[i].chain[|stack[i].chain| - 1] == stack[i].path
  }

  predicate OnStack(stack: seq<Item>, m: string) { exists i :: 0 <= i < |stack| && stack[i].path == m }

  predicate NoRepeats(ms: seq<string>) { forall i, j :: 0 <= i < j < |ms| ==> ms[i] != ms[j] }

  /** The first k imports are walked already or waiting on the stack, if they may be walked at all. */
  predicate Covered(imports: seq<string>, k: nat, visited: set<string>, stack: seq<Item>)
    requires k <= |imports|
  {
    forall i :: 0 <= i < k && Walkable(imports[i]) ==> imports[i] in visited || OnStack(stack, imports[i])
  }

  /** All imports of every walked module are covered. */
  predicate Pending(g: Graph, visited: set<string>, stack: seq<Item>)
  {
    forall m :: m in visited ==> Covered(Imports(g, m), |Imports(g, m)|, visited, stack)
  }

  lemma ReportIsSound(g: Graph, entry: string, chain: seq<string>, m: string)
    requires IsWalk(g, Walkable, chain) && chain[0] == entry
    requires Forbidden(m) && m in Imports(g, chain[|chain| - 1])
    ensures Sound(g, entry, Violation(entry, chain + [m]))
  {
    assert (chain + [m])[..|chain|] == chain;
  }

  lemma LastImportsSnoc(vs: seq<Violation>, v: Violation)
    requires |v.chain| >= 2
    ensures LastImports(vs + [v]) == LastImports(vs) + [(v.chain[|v.chain| - 2], v.chain[|v.chain| - 1])]
  {
    assert (vs + [v])[..|vs|] == vs;
  }

  lemma PushIsOk(g: Graph, entry: string, stack: seq<Item>, chain: seq<string>, m: string)
    requires IsWalk(g, Walkable, chain) && chain[0] == entry && StackOk(g, entry, stack)
    requires Walkable(m) && m in Imports(g, chain[|chain| - 1])
    ensures StackOk(g, entry, stack + [Item(m, chain + [m])])
    ensures OnStack(stack + [Item(m, chain + [m])], m)
  {
    WalkExtends(g, Walkable, chain, m);
    assert (stack + [Item(m, chain + [m])])[|stack|].path == m;
  }

  lemma StackGrows(stack: seq<Item>, it: Item)
    ensures forall m :: OnStack(stack, m) ==> OnStack(stack + [it], m)
  {
    forall m | OnStack(stack, m)
      ensures OnStack(stack + [it], m)
    {
      var i :| 0 <= i < |stack| && stack[i].path == m;
      assert (stack + [it])[i].path == m;
    }
  }

  lemma CoveredNext(imports: seq<string>, k: nat, visited: set<string>, stack: seq<Item>)
    requires k < |imports| && Covered(imports, k, visited, stack)
    requires Walkable(imports[k]) ==> imports[k] in visited || OnStack(stack, imports[k])
    ensures Covered(imports, k + 1, visited, stack)
  {
  }

  lemma CoveredPush(imports: seq<string>, k: nat, visited: set<string>, stack: seq<Item>, it: Item)
    requires k <= |imports| && Covered(imports, k, visited, stack)
    ensures Covered(imports, k, visited, stack + [it])
  {
    StackGrows(stack, it);
  }

  /** Handles the imports of one module: report the forbidden, skip islands and visited, push the rest. */
  method Expand(g: Graph, entry: string, chain: seq<string>, visited: set<string>, stack0: seq<Item>)
    returns (found: seq<Violation>, stack: seq<Item>)
    requires IsWalk(g, Walkable, chain) && chain[0] == entry
    requires StackOk(g, entry, stack0)
    ensures forall i :: 0 <= i < |found| ==> Sound(g, entry, found[i])
    ensures var current := chain[|chain| - 1];
            && LastImports(found) == Hits(g, current, |Imports(g, current)|)
            && Covered(Imports(g, current), |Imports(g, current)|, visited, stack)
    ensures stack0 <= stack && StackOk(g, entry, stack)
  {
    var current := chain[|chain| - 1];
    hide Forbidden, IsIslandPath, Sound, StackOk, IsWalk, OnStack, Covered, LastImports, AllHits;
    found, stack := [], stack0;
    var imports := Imports(g, current);
    StartExpand(imports, visited, stack);
    for k := 0 to |imports|
      invariant forall i :: 0 <= i < |found| ==> Sound(g, entry, found[i])
      invariant LastImports(found) == Hits(g, current, k)
      invariant stack0 <= stack && StackOk(g, entry, stack)
      invariant Covered(imports, k, visited, stack)
    {
      var resolved := imports[k];
      var nextChain := chain + [resolved];
      if Forbidden(resolved) {
        ReportIsSound(g, entry, chain, resolved);
        LastImportsSnoc(found, Violation(entry, nextChain));
        found := found + [Violation(entry, nextChain)];
        CoveredNext(imports, k, visited, stack);
        continue;
      }
      if IsIslandPath(resolved) || resolved in visited {
        CoveredNext(imports, k, visited, stack);
        continue;
      }
      PushIsOk(g, entry, stack, chain, resolved);
      CoveredPush(imports, k, visited, stack, Item(resolved, nextChain));
      stack := stack + [Item(resolved, nextChain)];
      CoveredNext(imports, k, visited, stack);
    }
  }

  lemma StartExpand(imports: seq<string>, visited: set<string>, stack: seq<Item>)
    ensures Covered(imports, 0, visited, stack) && LastImports([]) == []
  {
  }

  /** The modules walked so far, in order, are reachable, distinct and exactly the visited ones. */
  ghost predicate Walked(g: Graph, entry: string, order: seq<string>, visited: set<string>)
  {
    && NoRepeats(order)
    && (forall m :: m in visited <==> m in order)
    && (forall m :: m in visited ==> Reaches(g, Walkable, entry, m))
  }

  lemma WalkedSnoc(g: Graph, entry: string, order: seq<string>, visited: set<string>, chain: seq<string>)
    requires Walked(g, entry, order, visited)
    requires IsWalk(g, Walkable, chain) && chain[0] == entry && chain[|chain| - 1] !in visited
    ensures Walked(g, entry, order + [chain[|chain| - 1]], visited + {chain[|chain| - 1]})
  {
  }

  /** Expanding the popped module covers its imports; those of earlier modules stay covered. */
  lemma PendingStep(g: Graph, visited: set<string>, before: seq<Item>, after: seq<Item>, m: string)
    requires before != [] && before[|before| - 1].path == m
    requires Pending(g, visited, before)
    requires before[..|before| - 1] <= after
    requires Covered(Imports(g, m), |Imports(g, m)|, visited + {m}, after)
    ensures Pending(g, visited + {m}, after)
  {
    forall u | u in visited + {m}
      ensures Covered(Imports(g, u), |Imports(g, u)|, visited + {m}, after)
    {
      if u != m {
        CoveredPop(Imports(g, u), visited, before, after, m);
      }
    }
  }

  lemma CoveredPop(imports: seq<string>, visited: set<string>, before: seq<Item>, after: seq<Item>, m: string)
    requires before != [] && before[|before| - 1].path == m && before[..|before| - 1] <= after
    requires Covered(imports, |imports|, visited, before)
    ensures Covered(imports, |imports|, visited + {m}, after)
  {
    hide Walkable;
    forall i | 0 <= i < |imports| && Walkable(imports[i])
      ensures imports[i] in visited + {m} || OnStack(after, imports[i])
    {
      if imports[i] !in visited + {m} {
        var j :| 0 <= j < |before| && before[j].path == imports[i];
        assert j < |before| - 1 && after[j] == before[j];
      }
    }
  }

  ghost predicate Exact(g: Graph, entry: string, order: seq<string>, vs: seq<Violation>)
  {
    && NoRepeats(order)
    && (forall m :: m in order <==> Reaches(g, Walkable, entry, m))
    && LastImports(vs) == AllHits(g, order)
  }

  lemma LastImportsConcat(us: seq<Violation>, vs: seq<Violation>)
    ensures LastImports(us + vs) == LastImports(us) + LastImports(vs)
  {
    if vs == [] {
      assert us + vs == us;
    } else {
      assert (us + vs)[..|us + vs| - 1] == us + vs[..|vs| - 1];
    }
  }

  lemma AllHitsSnoc(g: Graph, ms: seq<string>, m: string)
    ensures AllHits(g, ms + [m]) == AllHits(g, ms) + Hits(g, m, |Imports(g, m)|)
  {
    assert (ms + [m])[..|ms|] == ms;
  }

  /** When the stack is empty, the visited modules are all the reachable ones. */
  lemma WalkComplete(g: Graph, entry: string, order: seq<string>, visited: set<string>)
    requires Walked(g, entry, order, visited) && Pending(g, visited, []) && entry in visited
    ensures NoRepeats(order) && forall m :: m in order <==> Reaches(g, Walkable, entry, m)
  {
    forall m | Reaches(g, Walkable, entry, m)
      ensures m in visited
    {
      var p :| IsWalk(g, Walkable, p) && p[0] == entry && p[|p| - 1] == m;
      assert Closed(g, Walkable, visited) by {
        forall u, i | u in visited && 0 <= i < |Imports(g, u)| && Walkable(Imports(g, u)[i])
          ensures Imports(g, u)[i] in visited
        {
          assert Covered(Imports(g, u), |Imports(g, u)|, visited, []);
        }
      }
      ClosedHoldsWalks(g, Walkable, visited, p);
    }
  }

  /** One entry's walk: every forbidden import of every reachable module is reported exactly once, by a real chain. */
  method Walk(g: Graph, entry: string) returns (found: seq<Violation>)
    ensures forall i :: 0 <= i < |found| ==> Sound(g, entry, found[i])
    ensures exists order :: Exact(g, entry, order, found)
  {
    hide Sound, IsWalk, Walkable, Reaches, Hits, LastImports, AllHits, Covered, Walked, Universe;
    found := [];
    var visited: set<string> := {};
    var stack := [Item(entry, [entry])];
    ghost var order: seq<string> := [];
    StartOk(g, entry);
    while |stack| > 0
      invariant StackOk(g, entry, stack)
      invariant forall i :: 0 <= i < |found| ==> Sound(g, entry, found[i])
      invariant Walked(g, entry, order, visited) && LastImports(found) == AllHits(g, order)
      invariant Pending(g, visited, stack)
      invariant entry in visited || OnStack(stack, entry)
      invariant visited <= Universe(g, entry)
      decreases Universe(g, entry) - visited, |stack|
    {
      var it := stack[|stack| - 1];
      ghost var before := stack;
      stack := stack[..|stack| - 1];
      if it.path in visited {
        PopVisited(g, visited, before);
        continue;
      }
      WalkInUniverse(g, Walkable, it.chain);
      WalkedSnoc(g, entry, order, visited, it.chain);
      AllHitsSnoc(g, order, it.path);
      var more;
      more, stack := Expand(g, entry, it.chain, visited + {it.path}, stack);
      PendingStep(g, visited, before, stack, it.path);
      LastImportsConcat(found, more);
      visited := visited + {it.path};
      order := order + [it.path];
      found := found + more;
    }
    WalkComplete(g, entry, order, visited);
    assert Exact(g, entry, order, found);
  }

  lemma StartOk(g: Graph, entry: string)
    ensures StackOk(g, entry, [Item(entry, [entry])]) && OnStack([Item(entry, [entry])], entry)
    ensures Walked(g, entry, [], {}) && LastImports([]) == AllHits(g, [])
    ensures entry in Universe(g, entry)
  {
    assert [Item(entry, [entry])][0].path == entry;
  }

  lemma PopVisited(g: Graph, visited: set<string>, stack: seq<Item>)
    requires stack != [] && stack[|stack| - 1].path in visited && Pending(g, visited, stack)
    ensures Pending(g, visited, stack[..|stack| - 1])
  {
    var m := stack[|stack| - 1].path;
    forall u | u in visited
      ensures Covered(Imports(g, u), |Imports(g, u)|, visited, stack[..|stack| - 1])
    {
      CoveredPop(Imports(g, u), visited, stack, stack[..|stack| - 1], m);
      assert visited + {m} == visited;
    }
  }

  /** The reports of a list of entries, one part per entry in order, each sound and exact. */
  ghost predicate Report(g: Graph, entries: seq<string>, parts: seq<seq<Violation>>, vs: seq<Violation>)
  {
    && |parts| == |entries| && vs == Flatten(parts)
    && forall k :: 0 <= k < |entries| ==> PartOk(g, entries[k], parts[k])
  }

  ghost predicate PartOk(g: Graph, entry: string, part: seq<Violation>)
  {
    && (forall i :: 0 <= i < |part| ==> Sound(g, entry, part[i]))
    && exists order :: Exact(g, entry, order, part)
  }

  function Flatten(parts: seq<seq<Violation>>): seq<Violation>
  {
    if parts == [] then [] else Flatten(parts[..|parts| - 1]) + parts[|parts| - 1]
  }

  /** The guard: the violations of every entry, in entry order. */
  method FindSsrSignalStoreLeaks(g: Graph, entries: seq<string>) returns (violations: seq<Violation>)
    ensures exists parts :: Report(g, entries, parts, violations)
  {
    hide Sound, Exact;
    violations := [];
    ghost var parts: seq<seq<Violation>> := [];
    for k := 0 to |entries|
      invariant Report(g, entries[..k], parts, violations)
    {
      var found := Walk(g, entries[k]);
      assert PartOk(g, entries[k], found);
      ghost var parts' := parts + [found];
      assert parts'[..k] == parts;
      forall j | 0 <= j < k + 1
        ensures PartOk(g, entries[..k + 1][j], parts'[j])
      {
        if j < k { assert entries[..k][j] == entries[j]; }
      }
      parts := parts';
      violations := violations + found;
    }
    assert entries[..|entries|] == entries;
  }

  lemma {:induction false} HitsHave(g: Graph, m: string, n: nat, i: nat)
    requires i < n <= |Imports(g, m)| && Forbidden(Imports(g, m)[i])
    ensures (m, Imports(g, m)[i]) in Hits(g, m, n)
  {
    hide Forbidden;
    if i < n - 1 { HitsHave(g, m, n - 1, i); }
  }

  lemma {:induction false} AllHitsHave(g: Graph, ms: seq<string>, m: string, f: string)
    requires m in ms && f in Imports(g, m) && Forbidden(f)
    ensures (m, f) in AllHits(g, ms)
  {
    hide Forbidden;
    var n := |ms| - 1;
    if m == ms[n] {
      var i :| 0 <= i < |Imports(g, m)| && Imports(g, m)[i] == f;
      HitsHave(g, m, |Imports(g, m)|, i);
    } else {
      AllHitsHave(g, ms[..n], m, f);
    }
  }

  lemma {:induction false} LastImportsFrom(vs: seq<Violation>, x: (string, string)) returns (i: nat)
    requires x in LastImports(vs)
    ensures i < |vs| && |vs[i].chain| >= 2 && vs[i].chain[|vs[i].chain| - 1] == x.1
  {
    var n := |vs| - 1;
    if x in LastImports(vs[..n]) {
      i := LastImportsFrom(vs[..n], x);
    } else {
      i := n;
    }
  }

  lemma {:induction false} FlattenHas(parts: seq<seq<Violation>>, k: nat, v: Violation)
    requires k < |parts| && v in parts[k]
    ensures v in Flatten(parts)
  {
    if k < |parts| - 1 { FlattenHas(parts[..|parts| - 1], k, v); }
  }

  lemma {:induction false} FlattenFrom(parts: seq<seq<Violation>>, v: Violation) returns (k: nat)
    requires v in Flatten(parts)
    ensures k < |parts| && v in parts[k]
  {
    var n := |parts| - 1;
    if v in parts[n] {
      k := n;
    } else {
      k := FlattenFrom(parts[..n], v);
    }
  }

  /** Some violation names `entry` and ends at `f`. */
  predicate Reported(vs: seq<Violation>, entry: string, f: string)
  {
    exists v :: v in vs && v.entry == entry && |v.chain| >= 2 && v.chain[|v.chain| - 1] == f
  }

  /**
    * An entry is reported for a forbidden module if and only if a chain of imports leads from the one to
    * the other through modules that are neither islands nor forbidden; and every reported chain is such a chain.
    */
  lemma ReportedIffReachable(g: Graph, entries: seq<string>, parts: seq<seq<Violation>>, vs: seq<Violation>,
                             entry: string, f: string)
    requires Report(g, entries, parts, vs) && entry in entries && Forbidden(f)
    ensures Reported(vs, entry, f) <==> exists c :: IsChainTo(g, Walkable, entry, f, c)
    ensures forall v :: v in vs ==> v.entry in entries && Sound(g, v.entry, v)
  {
    hide Forbidden, IsIslandPath;
    forall v | v in vs
      ensures v.entry in entries && Sound(g, v.entry, v)
    {
      var k := FlattenFrom(parts, v);
      var i :| 0 <= i < |parts[k]| && parts[k][i] == v;
    }
    forall c | IsChainTo(g, Walkable, entry, f, c)
      ensures Reported(vs, entry, f)
    {
      var k :| 0 <= k < |entries| && entries[k] == entry;
      ChainIsReported(g, entry, parts[k], f, c);
      var v :| v in parts[k] && v.entry == entry && |v.chain| >= 2 && v.chain[|v.chain| - 1] == f;
      FlattenHas(parts, k, v);
    }
  }

  lemma ChainReaches(g: Graph, entry: string, f: string, c: seq<string>)
    requires IsChainTo(g, Walkable, entry, f, c)
    ensures Reaches(g, Walkable, entry, c[|c| - 2])
  {
    var p := c[..|c| - 1];
    assert p[0] == entry && p[|p| - 1] == c[|c| - 2];
  }

  lemma ChainIsReported(g: Graph, entry: string, part: seq<Violation>, f: string, c: seq<string>)
    requires PartOk(g, entry, part) && Forbidden(f) && IsChainTo(g, Walkable, entry, f, c)
    ensures Reported(part, entry, f)
  {
    hide Forbidden, IsIslandPath, IsWalk, Walkable, LastImports, AllHits, Hits, NoRepeats, Reaches;
    var m := c[|c| - 2];
    var order :| Exact(g, entry, order, part);
    ChainReaches(g, entry, f, c);
    AllHitsHave(g, order, m, f);
    var i := LastImportsFrom(part, (m, f));
    assert part[i] in part && Sound(g, entry, part[i]);
  }
}

/** The duplicate guard: no forked module may be reachable from the ported tree as a second live copy. */
module DuplicateGuard {
  import opened ImportGraph

  datatype Finding = Finding(twin: string, entry: string, chain: seq<string>)

  datatype Item = Item(abs: string, chain: seq<string>)

  /** The walk goes through everything but live twins (forked modules that do not re-export their twin). */
  function Passing(live: set<string>): string -> bool { m => m !in live }

  /** The string a reported pair is remembered by. */
  function Key(entry: string, twin: string): string { entry + "->" + twin }

  function KeyOf(f: Finding): string { Key(f.entry, f.twin) }

  predicate Sound(g: Graph, live: set<string>, f: Finding)
  {
    f.twin in live && IsChainTo(g, Passing(live), f.entry, f.twin, f.chain)
  }

  ghost predicate Duplicated(g: Graph, live: set<string>, entry: string, twin: string)
  {
    twin in live && exists c :: IsChainTo(g, Passing(live), entry, twin, c)
  }

  predicate DistinctKeys(fs: seq<Finding>) { forall i, j :: 0 <= i < j < |fs| ==> KeyOf(fs[i]) != KeyOf(fs[j]) }

  /** `reported` holds exactly the keys of the findings, which are sound and have distinct keys. */
  ghost predicate Recorded(g: Graph, live: set<string>, entries: seq<string>, fs: seq<Finding>, reported: set<string>)
  {
    && (forall i :: 0 <= i < |fs| ==> Sound(g, live, fs[i]) && fs[i].entry in entries && KeyOf(fs[i]) in reported)
    && DistinctKeys(fs)
    && (forall k :: k in reported ==> exists i :: 0 <= i < |fs| && KeyOf(fs[i]) == k)
  }

  predicate ItemOk(g: Graph, live: set<string>, entry: string, it: Item)
  {
    && IsWalk(g, Passing(live), it.chain) && it.chain[0] == entry && it.chain[|it.chain| - 1] == it.abs
  }

  predicate StackOk(g: Graph, live: set<string>, entry: string, stack: seq<Item>)
  {
    forall i :: 0 <= i < |stack| ==> ItemOk(g, live, entry, stack[i])
  }

  /** The first k imports are seen, or reported if they are live twins. */
  predicate Covered(imports: seq<string>, k: nat, live: set<string>, entry: string, seen: set<string>, reported: set<string>)
    requires k <= |imports|
  {
    forall i :: 0 <= i < k ==> if imports[i] in live then Key(entry, imports[i]) in reported else imports[i] in seen
  }

  ghost predicate AllCovered(g: Graph, live: set<string>, entry: string, done: set<string>, seen: set<string>, reported: set<string>)
  {
    forall m :: m in done ==> Covered(Imports(g, m), |Imports(g, m)|, live, entry, seen, reported)
  }

  ghost function Paths(stack: seq<Item>): set<string> { set i | 0 <= i < |stack| :: stack[i].abs }

  lemma RecordedSnoc(g: Graph, live: set<string>, entries: seq<string>, fs: seq<Finding>, reported: set<string>, f: Finding)
    requires Recorded(g, live, entries, fs, reported) && Sound(g, live, f) && f.entry in entries && KeyOf(f) !in reported
    ensures Recorded(g, live, entries, fs + [f], reported + {KeyOf(f)})
  {
    hide Sound, KeyOf;
    var fs' := fs + [f];
    forall k | k in reported + {KeyOf(f)}
      ensures exists i :: 0 <= i < |fs'| && KeyOf(fs'[i]) == k
    {
      if k in reported {
        var i :| 0 <= i < |fs| && KeyOf(fs[i]) == k;
        assert KeyOf(fs'[i]) == k;
      } else {
        assert KeyOf(fs'[|fs|]) == k;
      }
    }
  }

  lemma FindingIsSound(g: Graph, live: set<string>, entry: string, chain: seq<string>, m: string)
    requires IsWalk(g, Passing(live), chain) && chain[0] == entry
    requires m in live && m in Imports(g, chain[|chain| - 1])
    ensures Sound(g, live, Finding(m, entry, chain + [m]))
  {
    assert (chain + [m])[..|chain|] == chain;
  }

  lemma PathsSnoc(stack: seq<Item>, it: Item)
    ensures Paths(stack + [it]) == Paths(stack) + {it.abs}
  {
    var s := stack + [it];
    forall m | m in Paths(stack) + {it.abs}
      ensures m in Paths(s)
    {
      if m in Paths(stack) {
        var i :| 0 <= i < |stack| && stack[i].abs == m;
        assert s[i].abs == m;
      } else {
        assert s[|stack|].abs == m;
      }
    }
    forall m | m in Paths(s)
      ensures m in Paths(stack) + {it.abs}
    {
      var i :| 0 <= i < |s| && s[i].abs == m;
      if i < |stack| { assert stack[i].abs == m; }
    }
  }

  lemma CoveredNext(imports: seq<string>, k: nat, live: set<string>, entry: string,
                    seen: set<string>, reported: set<string>, seen': set<string>, reported': set<string>)
    requires k < |imports| && Covered(imports, k, live, entry, seen, reported) && seen <= seen' && reported <= reported'
    requires if imports[k] in live then Key(entry, imports[k]) in reported' else imports[k] in seen'
    ensures Covered(imports, k + 1, live, entry, seen', reported')
  {
  }

  /** Handles the imports of one module: report each new live twin, push each unseen other module. */
  method Expand(g: Graph, live: set<string>, ghost entries: seq<string>, entry: string, chain: seq<string>, ghost done: set<string>,
                findings0: seq<Finding>, reported0: set<string>, seen0: set<string>, stack0: seq<Item>)
    returns (findings: seq<Finding>, reported: set<string>, seen: set<string>, stack: seq<Item>)
    requires IsWalk(g, Passing(live), chain) && chain[0] == entry
    requires Recorded(g, live, entries, findings0, reported0) && entry in entries && StackOk(g, live, entry, stack0)
    requires seen0 == done + Paths(stack0)
    ensures Recorded(g, live, entries, findings, reported) && StackOk(g, live, entry, stack)
    ensures reported0 <= reported && seen0 <= seen && (stack == stack0 || seen0 < seen)
    ensures seen == done + Paths(stack)
    ensures var imports := Imports(g, chain[|chain| - 1]);
            Covered(imports, |imports|, live, entry, seen, reported)
  {
    var imports := Imports(g, chain[|chain| - 1]);
    hide Sound, ItemOk, IsWalk, Recorded, Paths, Key, Imports;
    findings, reported, seen, stack := findings0, reported0, seen0, stack0;
    for k := 0 to |imports|
      invariant Recorded(g, live, entries, findings, reported) && StackOk(g, live, entry, stack)
      invariant reported0 <= reported && seen0 <= seen && (stack == stack0 || seen0 < seen)
      invariant seen == done + Paths(stack)
      invariant Covered(imports, k, live, entry, seen, reported)
    {
      var next := imports[k];
      ghost var seen1, reported1 := seen, reported;
      if next in live {
        var key := Key(entry, next);
        if key !in reported {
          var f := Finding(next, entry, chain + [next]);
          FindingIsSound(g, live, entry, chain, next);
          RecordedSnoc(g, live, entries, findings, reported, f);
          reported := reported + {key};
          findings := findings + [f];
        }
      } else if next !in seen {
        var it := Item(next, chain + [next]);
        PushIsOk(g, live, entry, chain, next);
        PathsSnoc(stack, it);
        seen := seen + {next};
        stack := stack + [it];
      }
      CoveredNext(imports, k, live, entry, seen1, reported1, seen, reported);
    }
  }

  lemma PushIsOk(g: Graph, live: set<string>, entry: string, chain: seq<string>, m: string)
    requires IsWalk(g, Passing(live), chain) && chain[0] == entry
    requires m !in live && m in Imports(g, chain[|chain| - 1])
    ensures ItemOk(g, live, entry, Item(m, chain + [m]))
  {
    WalkExtends(g, Passing(live), chain, m);
  }

  /** Every live twin the entry reaches has its key among the reported ones. */
  ghost predicate EntryDone(g: Graph, live: set<string>, entry: string, reported: set<string>)
  {
    forall t :: Duplicated(g, live, entry, t) ==> Key(entry, t) in reported
  }

  lemma WalkComplete(g: Graph, live: set<string>, entry: string, seen: set<string>, reported: set<string>)
    requires entry in seen && AllCovered(g, live, entry, seen, seen, reported)
    ensures EntryDone(g, live, entry, reported)
  {
    forall t | Duplicated(g, live, entry, t)
      ensures Key(entry, t) in reported
    {
      hide Key;
      var c :| IsChainTo(g, Passing(live), entry, t, c);
      var p := c[..|c| - 1];
      var m := c[|c| - 2];
      assert p[0] == entry && p[|p| - 1] == m;
      assert Closed(g, Passing(live), seen) by {
        forall u, i | u in seen && 0 <= i < |Imports(g, u)| && Passing(live)(Imports(g, u)[i])
          ensures Imports(g, u)[i] in seen
        {
          assert Covered(Imports(g, u), |Imports(g, u)|, live, entry, seen, reported);
        }
      }
      ClosedHoldsWalks(g, Passing(live), seen, p);
      assert Covered(Imports(g, m), |Imports(g, m)|, live, entry, seen, reported);
      var i :| 0 <= i < |Imports(g, m)| && Imports(g, m)[i] == t;
    }
  }

  lemma AllCoveredStep(g: Graph, live: set<string>, entry: string, done: set<string>, m: string,
                       seen: set<string>, reported: set<string>, seen': set<string>, reported': set<string>)
    requires AllCovered(g, live, entry, done, seen, reported) && seen <= seen' && reported <= reported'
    requires Covered(Imports(g, m), |Imports(g, m)|, live, entry, seen', reported')
    ensures AllCovered(g, live, entry, done + {m}, seen', reported')
  {
    hide Key, Imports;
    forall u | u in done + {m}
      ensures Covered(Imports(g, u), |Imports(g, u)|, live, entry, seen', reported')
    {
      if u != m {
        assert Covered(Imports(g, u), |Imports(g, u)|, live, entry, seen, reported);
      }
    }
  }

  /** One entry's walk, adding to what earlier entries reported. */
  method Walk(g: Graph, live: set<string>, ghost entries: seq<string>, entry: string, findings0: seq<Finding>, reported0: set<string>)
    returns (findings: seq<Finding>, reported: set<string>)
    requires Recorded(g, live, entries, findings0, reported0) && entry in entries
    ensures Recorded(g, live, entries, findings, reported) && reported0 <= reported
    ensures EntryDone(g, live, entry, reported)
  {
    hide Sound, IsWalk, Recorded, Key, Imports, Covered, EntryDone, Universe, Passing, AllCovered, Paths;
    findings, reported := findings0, reported0;
    var stack := [Item(entry, [entry])];
    var seen := {entry};
    ghost var done: set<string> := {};
    StartOk(g, live, entry);
    while |stack| > 0
      invariant Recorded(g, live, entries, findings, reported) && reported0 <= reported
      invariant StackOk(g, live, entry, stack)
      invariant seen == done + Paths(stack) && entry in seen
      invariant AllCovered(g, live, entry, done, seen, reported)
      invariant done <= Universe(g, entry)
      invariant Paths(stack) <= Universe(g, entry)
      decreases Universe(g, entry) - seen, |stack|
    {
      var it := stack[|stack| - 1];
      var rest := stack[..|stack| - 1];
      assert stack == rest + [it];
      PathsSnoc(rest, it);
      ghost var done', seen', reported' := done + {it.abs}, seen, reported;
      findings, reported, seen, stack := Expand(g, live, entries, entry, it.chain, done', findings, reported, seen, rest);
      AllCoveredStep(g, live, entry, done, it.abs, seen', reported', seen, reported);
      done := done';
      PathsInUniverse(g, live, entry, stack);
    }
    NoPaths();
    assert stack == [] && seen == done;
    WalkComplete(g, live, entry, seen, reported);
  }

  lemma NoPaths()
    ensures Paths([]) == {}
  {
  }

  lemma PathsInUniverse(g: Graph, live: set<string>, entry: string, stack: seq<Item>)
    requires StackOk(g, live, entry, stack)
    ensures Paths(stack) <= Universe(g, entry)
  {
    hide Universe;
    forall m | m in Paths(stack)
      ensures m in Universe(g, entry)
    {
      var i :| 0 <= i < |stack| && stack[i].abs == m;
      WalkInUniverse(g, Passing(live), stack[i].chain);
    }
  }

  lemma StartOk(g: Graph, live: set<string>, entry: string)
    ensures StackOk(g, live, entry, [Item(entry, [entry])]) && Paths([Item(entry, [entry])]) == {entry}
    ensures entry in Universe(g, entry) && forall r :: AllCovered(g, live, entry, {}, {entry}, r)
  {
    assert [Item(entry, [entry])][0].abs == entry;
    PathsSnoc([], Item(entry, [entry]));
    assert [] + [Item(entry, [entry])] == [Item(entry, [entry])];
  }

  // --- The report's order ---

  /** What `localeCompare` must be for the sort to be well defined. */
  ghost predicate TotalOrder(leq: (string, string) -> bool)
  {
    && (forall a, b :: leq(a, b) || leq(b, a))
    && (forall a, b :: leq(a, b) && leq(b, a) ==> a == b)
    && (forall a, b, c :: leq(a, b) && leq(b, c) ==> leq(a, c))
  }

  predicate Before(leq: (string, string) -> bool, a: Finding, b: Finding)
  {
    if a.twin == b.twin then leq(a.entry, b.entry) else leq(a.twin, b.twin)
  }

  predicate Sorted(leq: (string, string) -> bool, fs: seq<Finding>)
  {
    forall i, j :: 0 <= i < j < |fs| ==> Before(leq, fs[i], fs[j])
  }

  function Insert(leq: (string, string) -> bool, f: Finding, fs: seq<Finding>): (r: seq<Finding>)
    ensures multiset(r) == multiset(fs) + multiset{f}
  {
    if fs == [] || Before(leq, f, fs[0]) then [f] + fs
    else
      assert fs == [fs[0]] + fs[1..];
      [fs[0]] + Insert(leq, f, fs[1..])
  }

  function Sort(leq: (string, string) -> bool, fs: seq<Finding>): (r: seq<Finding>)
    ensures multiset(r) == multiset(fs)
  {
    if fs == [] then []
    else
      assert fs == [fs[0]] + fs[1..];
      Insert(leq, fs[0], Sort(leq, fs[1..]))
  }

  lemma {:induction false} InsertSorted(leq: (string, string) -> bool, f: Finding, fs: seq<Finding>)
    requires TotalOrder(leq) && Sorted(leq, fs)
    ensures Sorted(leq, Insert(leq, f, fs))
  {
    if fs != [] && !Before(leq, f, fs[0]) {
      InsertSorted(leq, f, fs[1..]);
      var r := Insert(leq, f, fs[1..]);
      assert Before(leq, fs[0], f);
      forall j | 0 <= j < |r|
        ensures Before(leq, fs[0], r[j])
      {
        assert r[j] in multiset(r);
        if r[j] != f {
          assert r[j] in fs[1..];
          var k :| 0 <= k < |fs[1..]| && fs[1..][k] == r[j];
          assert fs[k + 1] == r[j];
        }
      }
    } else if fs != [] {
      forall j | 0 <= j < |fs|
        ensures Before(leq, f, fs[j])
      {
        if j > 0 { assert Before(leq, fs[0], fs[j]); }
      }
    }
  }

  lemma {:induction false} SortSorted(leq: (string, string) -> bool, fs: seq<Finding>)
    requires TotalOrder(leq)
    ensures Sorted(leq, Sort(leq, fs))
  {
    if fs != [] {
      SortSorted(leq, fs[1..]);
      InsertSorted(leq, fs[0], Sort(leq, fs[1..]));
    }
  }

  // --- The whole guard ---

  /** No finding twice, and no two findings with one key. */
  ghost predicate OnePerKey(fs: seq<Finding>)
  {
    && (forall f :: multiset(fs)[f] <= 1)
    && (forall f, f' :: f in multiset(fs) && f' in multiset(fs) && KeyOf(f) == KeyOf(f') ==> f == f')
  }

  lemma {:induction false} DistinctCounts(fs: seq<Finding>)
    requires DistinctKeys(fs)
    ensures OnePerKey(fs)
  {
    hide KeyOf;
    if fs != [] {
      var n := |fs| - 1;
      assert fs == fs[..n] + [fs[n]];
      DistinctCounts(fs[..n]);
      forall f | f in multiset(fs[..n])
        ensures KeyOf(f) != KeyOf(fs[n])
      {
        assert f in fs[..n];
        var i :| 0 <= i < n && fs[i] == f;
      }
    }
  }

  /** Sound, one finding per key, and a finding for the key of every duplicated pair. */
  ghost predicate Report(g: Graph, live: set<string>, entries: seq<string>, fs: seq<Finding>)
  {
    && (forall f :: f in multiset(fs) ==> Sound(g, live, f) && f.entry in entries)
    && OnePerKey(fs)
    && (forall e, t :: e in entries && Duplicated(g, live, e, t) ==> HasKey(fs, Key(e, t)))
  }

  ghost predicate HasKey(fs: seq<Finding>, k: string) { exists f :: f in multiset(fs) && KeyOf(f) == k }

  lemma RecordedIsReport(g: Graph, live: set<string>, entries: seq<string>, fs: seq<Finding>, reported: set<string>)
    requires Recorded(g, live, entries, fs, reported)
    requires forall k :: 0 <= k < |entries| ==> EntryDone(g, live, entries[k], reported)
    ensures Report(g, live, entries, fs)
  {
    hide Sound, KeyOf, Key, Duplicated;
    DistinctCounts(fs);
    forall f | f in multiset(fs)
      ensures Sound(g, live, f) && f.entry in entries
    {
      assert f in fs;
    }
    forall e, t | e in entries && Duplicated(g, live, e, t)
      ensures HasKey(fs, Key(e, t))
    {
      var k :| 0 <= k < |entries| && entries[k] == e;
      assert EntryDone(g, live, entries[k], reported);
      var i :| 0 <= i < |fs| && KeyOf(fs[i]) == Key(e, t);
      assert fs[i] in multiset(fs);
    }
  }

  lemma ReportReorders(g: Graph, live: set<string>, entries: seq<string>, fs: seq<Finding>, fs': seq<Finding>)
    requires Report(g, live, entries, fs) && multiset(fs) == multiset(fs')
    ensures Report(g, live, entries, fs')
  {
    hide Sound, KeyOf, Key, Duplicated;
    forall e, t | e in entries && Duplicated(g, live, e, t)
      ensures HasKey(fs', Key(e, t))
    {
      assert HasKey(fs, Key(e, t));
    }
  }

  /** The guard: walks every entry, then sorts the findings by twin and entry. */
  method FindDuplicateLibState(g: Graph, live: set<string>, entries: seq<string>, leq: (string, string) -> bool)
    returns (findings: seq<Finding>)
    ensures Report(g, live, entries, findings)
    ensures TotalOrder(leq) ==> Sorted(leq, findings)
  {
    hide Sound, KeyOf, Key, Report, EntryDone, Sort, Sorted;
    findings := [];
    var reported: set<string> := {};
    for k := 0 to |entries|
      invariant Recorded(g, live, entries, findings, reported)
      invariant forall j :: 0 <= j < k ==> EntryDone(g, live, entries[j], reported)
    {
      ghost var reported' := reported;
      findings, reported := Walk(g, live, entries, entries[k], findings, reported);
      forall j | 0 <= j < k
        ensures EntryDone(g, live, entries[j], reported)
      {
        EntryStaysDone(g, live, entries[j], reported', reported);
      }
    }
    RecordedIsReport(g, live, entries, findings, reported);
    ReportReorders(g, live, entries, findings, Sort(leq, findings));
    if TotalOrder(leq) { SortSorted(leq, findings); }
    findings := Sort(leq, findings);
  }

  lemma EntryStaysDone(g: Graph, live: set<string>, entry: string, reported: set<string>, reported': set<string>)
    requires EntryDone(g, live, entry, reported) && reported <= reported'
    ensures EntryDone(g, live, entry, reported')
  {
  }

  // --- When a key stands for one pair ---

  ghost predicate Names(fs: seq<Finding>, e: string, t: string)
  {
    exists f :: f in multiset(fs) && f.entry == e && f.twin == t
  }

  /** Two duplicated pairs that would be remembered by one key. */
  ghost predicate Collide(g: Graph, live: set<string>, e: string, t: string, e': string, t': string)
  {
    && Duplicated(g, live, e, t) && Duplicated(g, live, e', t')
    && (e, t) != (e', t') && Key(e, t) == Key(e', t')
  }

  ghost predicate AllReported(g: Graph, live: set<string>, entries: seq<string>, fs: seq<Finding>)
  {
    forall e, t :: e in entries && Duplicated(g, live, e, t) ==> Names(fs, e, t)
  }

  ghost predicate AnyCollision(g: Graph, live: set<string>, entries: seq<string>)
  {
    exists e, t, e', t' :: e in entries && e' in entries && Collide(g, live, e, t, e', t')
  }

  lemma UnreportedCollides(g: Graph, live: set<string>, entries: seq<string>, fs: seq<Finding>, e: string, t: string)
    requires Report(g, live, entries, fs)
    requires e in entries && Duplicated(g, live, e, t) && !Names(fs, e, t)
    ensures AnyCollision(g, live, entries)
  {
    hide Key, Sound, Duplicated, OnePerKey;
    SoundIsDuplicated(g, live, entries, fs);
    assert HasKey(fs, Key(e, t));
    var f :| f in multiset(fs) && KeyOf(f) == Key(e, t);
    assert Collide(g, live, e, t, f.entry, f.twin);
  }

  lemma CollisionHidesOne(g: Graph, live: set<string>, fs: seq<Finding>, e: string, t: string, e': string, t': string)
    requires OnePerKey(fs) && Collide(g, live, e, t, e', t')
    ensures !(Names(fs, e, t) && Names(fs, e', t'))
  {
    hide Key, Duplicated;
  }

  /**
    * Every duplicated pair is reported if and only if no two of them share a key; in either case only
    * duplicated pairs are reported, and none twice.
    */
  lemma AllReportedIffNoCollision(g: Graph, live: set<string>, entries: seq<string>, fs: seq<Finding>)
    requires Report(g, live, entries, fs)
    ensures AllReported(g, live, entries, fs) <==> !AnyCollision(g, live, entries)
    ensures forall f :: f in multiset(fs) ==> f.entry in entries && Duplicated(g, live, f.entry, f.twin)
    ensures forall f, f' :: f in multiset(fs) && f' in multiset(fs) && f.entry == f'.entry && f.twin == f'.twin ==> f == f'
  {
    hide Key, Sound, Duplicated, Names, Collide;
    SoundIsDuplicated(g, live, entries, fs);
    if !AllReported(g, live, entries, fs) {
      var e, t :| e in entries && Duplicated(g, live, e, t) && !Names(fs, e, t);
      UnreportedCollides(g, live, entries, fs, e, t);
    } else if AnyCollision(g, live, entries) {
      var e, t, e', t' :| e in entries && e' in entries && Collide(g, live, e, t, e', t');
      CollisionHidesOne(g, live, fs, e, t, e', t');
      CollidingPairs(g, live, e, t, e', t');
    }
  }

  lemma CollidingPairs(g: Graph, live: set<string>, e: string, t: string, e': string, t': string)
    requires Collide(g, live, e, t, e', t')
    ensures Duplicated(g, live, e, t) && Duplicated(g, live, e', t')
  {
  }

  lemma SoundIsDuplicated(g: Graph, live: set<string>, entries: seq<string>, fs: seq<Finding>)
    requires Report(g, live, entries, fs)
    ensures forall f :: f in multiset(fs) ==> f.entry in entries && Duplicated(g, live, f.entry, f.twin)
  {
  }

  predicate HasArrow(s: string) { exists i :: 0 <= i < |s| - 1 && s[i] == '-' && s[i + 1] == '>' }

  /** The one path continues the other after an arrow. */
  predicate Continues(e: string, e': string)
  {
    |e| + 2 <= |e'| && e'[..|e|] == e && e'[|e|] == '-' && e'[|e| + 1] == '>'
  }

  /** Equal keys of different entries: the longer entry continues the shorter. */
  lemma SharedKeyContinues(e: string, t: string, e': string, t': string)
    requires Key(e, t) == Key(e', t') && |e| < |e'|
    ensures Continues(e, e')
  {
    var k := Key(e, t);
    assert k[|e|] == '-' && k[|e| + 1] == '>' && k[..|e|] == e;
    assert Key(e', t')[|e'|] == '-' && Key(e', t')[..|e'|] == e';
    assert |e| + 1 != |e'|;
    assert e'[..|e|] == k[..|e|] && e'[|e|] == k[|e|] && e'[|e| + 1] == k[|e| + 1];
  }

  lemma SameLengthSameKey(e: string, t: string, e': string, t': string)
    requires Key(e, t) == Key(e', t') && |e| == |e'|
    ensures e == e' && t == t'
  {
    var k := Key(e, t);
    assert k[..|e|] == e && k[..|e'|] == e' && k[|e| + 2..] == t && Key(e', t')[|e'| + 2..] == t';
  }

  /** Keys of entries whose paths contain no "->" identify their pair. */
  lemma PlainNamesDoNotCollide(e: string, t: string, e': string, t': string)
    requires !HasArrow(e) && !HasArrow(e') && Key(e, t) == Key(e', t')
    ensures e == e' && t == t'
  {
    hide Key;
    if |e| < |e'| {
      SharedKeyContinues(e, t, e', t');
    } else if |e'| < |e| {
      SharedKeyContinues(e', t', e, t);
    } else {
      SameLengthSameKey(e, t, e', t');
    }
  }

  /** So on entries whose paths hold no "->" the report names exactly the duplicated pairs. */
  lemma PlainEntriesReportExactly(g: Graph, live: set<string>, entries: seq<string>, fs: seq<Finding>)
    requires Report(g, live, entries, fs) && forall e :: e in entries ==> !HasArrow(e)
    ensures forall e, t :: e in entries && Duplicated(g, live, e, t) <==> Names(fs, e, t)
  {
    hide Key, Duplicated, HasArrow, Report;
    if AnyCollision(g, live, entries) {
      var e, t, e', t' :| e in entries && e' in entries && Collide(g, live, e, t, e', t');
      PlainNamesDoNotCollide(e, t, e', t');
    }
    AllReportedIffNoCollision(g, live, entries, fs);
  }

  ghost predicate SomeContinues(entries: seq<string>)
  {
    exists e, e' :: e in entries && e' in entries && Continues(e, e')
  }

  /**
    * What a caller can check from the entries alone: pairs never collide, whatever the imports and the live twins,
    * if and only if no entry's path continues another's after an arrow.
    */
  lemma EntriesNeverCollideIff(entries: seq<string>)
    ensures (forall g: Graph, live: set<string> :: !AnyCollision(g, live, entries)) <==> !SomeContinues(entries)
  {
    hide Duplicated, Key, Continues;
    if SomeContinues(entries) {
      var e, e' :| e in entries && e' in entries && Continues(e, e');
      var g, live := ContinuedCollides(e, e', entries);
    } else {
      forall g: Graph, live: set<string>
        ensures !AnyCollision(g, live, entries)
      {
        if AnyCollision(g, live, entries) {
          var e, t, e', t' :| e in entries && e' in entries && Collide(g, live, e, t, e', t');
          if |e| < |e'| {
            SharedKeyContinues(e, t, e', t');
          } else if |e'| < |e| {
            SharedKeyContinues(e', t', e, t);
          } else {
            SameLengthSameKey(e, t, e', t');
          }
        }
      }
    }
  }

  lemma ContinuedCollides(e: string, e': string, entries: seq<string>) returns (g: Graph, live: set<string>)
    requires e in entries && e' in entries && Continues(e, e')
    ensures AnyCollision(g, live, entries)
  {
    hide Collide;
    var b := e'[|e| + 2..];
    assert e' == e + "->" + b;
    var t := b + "->" + "c";
    g, live := map[e := [t], e' := ["c"]], {t, "c"};
    ArrowPairsCollide(e, b, "c");
  }

  /**
    * Paths that do contain it can collide: an entry a that imports the live twin "b->c", and an entry "a->b" that
    * imports the live twin c, are both duplicated and share a key, so no report names both.
    */
  lemma ArrowNamesCollide(a: string, b: string, c: string, fs: seq<Finding>)
    requires var e, t := a + "->" + b, b + "->" + c; Report(map[a := [t], e := [c]], {t, c}, [a, e], fs)
    ensures var e, t := a + "->" + b, b + "->" + c;
            && Collide(map[a := [t], e := [c]], {t, c}, a, t, e, c)
            && !AllReported(map[a := [t], e := [c]], {t, c}, [a, e], fs)
  {
    hide Report, AllReported, Collide;
    var e, t := a + "->" + b, b + "->" + c;
    var g: Graph, live := map[a := [t], e := [c]], {t, c};
    assert Collide(g, live, a, t, e, c) by { ArrowPairsCollide(a, b, c); }
    assert a in [a, e] && e in [a, e] && AnyCollision(g, live, [a, e]);
    AllReportedIffNoCollision(g, live, [a, e], fs);
  }

  lemma ArrowPairsCollide(a: string, b: string, c: string)
    ensures var e, t := a + "->" + b, b + "->" + c; Collide(map[a := [t], e := [c]], {t, c}, a, t, e, c)
  {
    var e, t := a + "->" + b, b + "->" + c;
    var g: Graph, live := map[a := [t], e := [c]], {t, c};
    assert |a| != |e|;
    assert Key(a, t) == Key(e, c);
    assert Imports(g, a) == [t] && Imports(g, e) == [c];
    OneImport(g, live, a, t);
    OneImport(g, live, e, c);
  }

  lemma OneImport(g: Graph, live: set<string>, entry: string, twin: string)
    requires twin in live && Imports(g, entry) == [twin]
    ensures Duplicated(g, live, entry, twin)
  {
    var chain := [entry, twin];
    assert chain[..1] == [entry];
    assert IsChainTo(g, Passing(live), entry, twin, chain);
  }

  /** And there is such a report: the guard's own. */
  method ArrowReport() returns (fs: seq<Finding>)
    ensures !AllReported(map["a" := ["b->c"], "a->b" := ["c"]], {"b->c", "c"}, ["a", "a->b"], fs)
  {
    assert "a" + "->" + "b" == "a->b" && "b" + "->" + "c" == "b->c";
    fs := FindDuplicateLibState(map["a" := ["b->c"], "a->b" := ["c"]], {"b->c", "c"}, ["a", "a->b"], (x, y) => true);
    ArrowNamesCollide("a", "b", "c", fs);
  }
}
