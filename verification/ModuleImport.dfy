/** Imports between modules: cycle detection and the cache of looked-up functions (src/runtime/module.cc). */
module ModuleImport {
  import opened Wrappers
  import Sets

  /** A function of a module. */
  type Func = nat

  class ModuleNode {
    /** The functions that the module itself has. */
    const functions: map<string, Func>
    var imports: seq<ModuleNode>
    var importCache: map<string, Func>

    constructor (functions: map<string, Func>)
      ensures this.functions == functions && imports == [] && importCache == map[]
    {
      this.functions, imports, importCache := functions, [], map[];
    }

    /** The first match among the imports, without any cache. */
    function FirstMatch(name: string): Option<Func>
      reads this
    {
      FirstMatchFrom(imports, name, 0)
    }

    /** Every cached function is the one that an uncached look-up finds. */
    ghost predicate CacheRight()
      reads this
    {
      forall name <- importCache :: FirstMatch(name) == Some(importCache[name])
    }

    /** Imports another module, unless that would make a cycle. The cache stays right, since imports are only appended. */
    method Import(other: ModuleNode, ghost all: set<ModuleNode>) returns (ok: bool)
      requires this in all && other in all && Closed(all) && Acyclic(all)
      modifies `imports
      ensures imports == if ok then old(imports) + [other] else old(imports)
      ensures Closed(all) && Acyclic(all)
      ensures !ok ==> forall rank: map<ModuleNode, nat> :: !(Ranked(all, rank) && rank[other] < rank[this])
      ensures old(CacheRight()) ==> CacheRight()
    {
      ghost var rank: map<ModuleNode, nat> :| Ranked(all, rank);
      ghost var before := imports;
      var visited, order := Reachable(other, all);
      if this in visited {
        forall rank: map<ModuleNode, nat> | Ranked(all, rank) ensures rank[other] >= rank[this] {
          DerivedBelow(all, rank, order);
        }
        return false;
      }
      ghost var rank1 := Raise(all, rank, visited);
      imports := imports + [other];
      assert Ranked(all, rank1);
      forall name <- importCache | old(CacheRight()) ensures FirstMatch(name) == Some(importCache[name]) {
        MatchAppend(before, other, name, 0);
      }
      return true;
    }

    /** The function of this name: the cached one, the first match among the imports, or the one in the global registry. */
    method GetFuncFromEnv(name: string, registry: map<string, Func>) returns (f: Option<Func>)
      requires CacheRight()
      modifies `importCache
      ensures CacheRight()
      ensures f == if FirstMatch(name).Some? then FirstMatch(name) else if name in registry then Some(registry[name]) else None
    {
      if name in importCache {
        return Some(importCache[name]);
      }
      f := None;
      for k := 0 to |imports|
        invariant f == None && FirstMatchFrom(imports, name, k) == FirstMatchFrom(imports, name, 0)
      {
        if name in imports[k].functions {
          f := Some(imports[k].functions[name]);
          importCache := importCache[name := imports[k].functions[name]];
          return;
        }
      }
      if name in registry {
        f := Some(registry[name]);
      }
    }
  }

  /** The first module from k on that has the function itself. */
  function FirstMatchFrom(modules: seq<ModuleNode>, name: string, k: nat): Option<Func>
    requires k <= |modules|
    decreases |modules| - k
  {
    if k == |modules| then None
    else if name in modules[k].functions then Some(modules[k].functions[name])
    else FirstMatchFrom(modules, name, k + 1)
  }

  lemma {:induction false} MatchAppend(modules: seq<ModuleNode>, m: ModuleNode, name: string, k: nat)
    requires k <= |modules| && FirstMatchFrom(modules, name, k).Some?
    ensures FirstMatchFrom(modules + [m], name, k) == FirstMatchFrom(modules, name, k)
    decreases |modules| - k
  {
    if k < |modules| && name !in modules[k].functions {
      MatchAppend(modules, m, name, k + 1);
    }
  }

  /** A set of modules that holds what its members import. */
  ghost predicate Closed(all: set<ModuleNode>)
    reads all
  {
    forall m <- all, k <- m.imports :: k in all
  }

  /** Every import goes down in rank. */
  ghost predicate Ranked(all: set<ModuleNode>, older rank: map<ModuleNode, nat>)
    reads all
  {
    rank.Keys == all && forall m <- all, k <- m.imports :: k in rank && rank[k] < rank[m]
  }

  /** No module can be reached from its own imports. */
  ghost predicate Acyclic(all: set<ModuleNode>)
    reads all
  {
    exists rank: map<ModuleNode, nat> :: Ranked(all, rank)
  }

  /** Every module of the sequence but the first is imported by an earlier one. */
  ghost predicate Derived(order: seq<ModuleNode>)
    reads order
  {
    order != [] && forall i | 0 < i < |order| :: ImportedEarlier(order, i)
  }

  ghost predicate ImportedEarlier(order: seq<ModuleNode>, i: nat)
    requires i < |order|
    reads order
  {
    exists j :: 0 <= j < i && order[i] in order[j].imports
  }

  lemma {:induction false} DerivedMore(order: seq<ModuleNode>, n: ModuleNode, next: ModuleNode)
    requires Derived(order) && n in order && next in n.imports
    ensures Derived(order + [next])
  {
    var order1 := order + [next];
    forall i | 0 < i < |order1| ensures ImportedEarlier(order1, i) {
      if i < |order| {
        assert ImportedEarlier(order, i);
        var j :| 0 <= j < i && order[i] in order[j].imports;
        assert order1[i] in order1[j].imports;
      } else {
        var j :| 0 <= j < |order| && order[j] == n;
        assert order1[i] in order1[j].imports;
      }
    }
  }

  /** What is derived from a module is not above it in any ranking. */
  lemma {:induction false} DerivedBelow(all: set<ModuleNode>, rank: map<ModuleNode, nat>, order: seq<ModuleNode>)
    requires Ranked(all, rank) && Derived(order) && order[0] in all
    ensures forall m <- order :: m in all && rank[m] <= rank[order[0]]
  {
    for k := 1 to |order|
      invariant forall i | 0 <= i < k :: order[i] in all && rank[order[i]] <= rank[order[0]]
    {
      assert ImportedEarlier(order, k);
    }
  }

  ghost function Highest(all: set<ModuleNode>, rank: map<ModuleNode, nat>): (n: nat)
    requires all <= rank.Keys
    ensures forall m <- all :: rank[m] <= n
    decreases all
  {
    if all == {} then 0
    else
      var m :| m in all;
      var n := Highest(all - {m}, rank);
      if rank[m] >= n then rank[m] else n
  }

  /** Ranks that put everything outside of a closed set above it. */
  lemma {:induction false} Raise(all: set<ModuleNode>, rank: map<ModuleNode, nat>, visited: set<ModuleNode>) returns (rank1: map<ModuleNode, nat>)
    requires Closed(all) && Ranked(all, rank) && visited <= all && Closed(visited)
    ensures Ranked(all, rank1) && forall m, k | m in all && m !in visited && k in visited :: rank1[k] < rank1[m]
  {
    var top := Highest(all, rank);
    rank1 := map m <- all :: if m in visited then rank[m] else rank[m] + top + 1;
  }

  /** All imports of m are visited. */
  predicate Expanded(m: ModuleNode, visited: set<ModuleNode>)
    reads m
  {
    forall k <- m.imports :: k in visited
  }

  lemma {:induction false} StartDerived(order: seq<ModuleNode>)
    requires |order| == 1
    ensures Derived(order)
  {
  }

  /** Visits what n imports and is not visited yet. */
  method VisitImports(n: ModuleNode, visited0: set<ModuleNode>, stack0: seq<ModuleNode>, ghost order0: seq<ModuleNode>)
    returns (visited: set<ModuleNode>, stack: seq<ModuleNode>, ghost order: seq<ModuleNode>)
    requires (forall m <- stack0 :: m in visited0) && Derived(order0) && n in order0 && visited0 == set m <- order0
    ensures visited == visited0 + (set k <- n.imports) && Expanded(n, visited)
    ensures (forall m <- stack :: m in visited) && (forall m <- stack0 :: m in stack) && (forall m <- visited :: m in visited0 || m in stack)
    ensures visited == visited0 ==> stack == stack0
    ensures Derived(order) && order != [] && visited == (set m <- order) && order[0] == order0[0]
  {
    visited, stack, order := visited0, stack0, order0;
    for k := 0 to |n.imports|
      invariant visited == visited0 + set m <- n.imports[..k]
      invariant (forall m <- stack :: m in visited) && (forall m <- stack0 :: m in stack) && (forall m <- visited :: m in visited0 || m in stack)
      invariant visited == visited0 ==> stack == stack0
      invariant Derived(order) && visited == (set m <- order) && order[0] == order0[0]
    {
      var next := n.imports[k];
      assert n.imports[..k + 1] == n.imports[..k] + [next];
      if next !in visited {
        assert n in visited0;
        DerivedMore(order, n, next);
        visited := visited + {next};
        stack := stack + [next];
        order := order + [next];
      }
    }
    assert n.imports[..|n.imports|] == n.imports;
  }

  /** The modules that can be reached from one, by a worklist: they are closed under imports, and derived from the module. */
  method Reachable(other: ModuleNode, ghost all: set<ModuleNode>) returns (visited: set<ModuleNode>, ghost order: seq<ModuleNode>)
    requires other in all && Closed(all)
    ensures other in visited && visited <= all && Closed(visited)
    ensures Derived(order) && order[0] == other && visited == set m <- order
  {
    hide Derived;
    visited, order := {other}, [other];
    StartDerived(order);
    var stack := [other];
    while stack != []
      invariant visited <= all && other in visited && (forall m <- stack :: m in visited)
      invariant forall m <- visited :: m in stack || Expanded(m, visited)
      invariant Derived(order) && order != [] && order[0] == other && visited == set m <- order
      decreases |all - visited|, |stack|
    {
      var n := stack[|stack| - 1];
      ghost var visited0, stack0 := visited, stack;
      assert n in stack;
      assert forall m <- stack[..|stack| - 1] :: m in stack;
      visited, stack, order := VisitImports(n, visited, stack[..|stack| - 1], order);
      forall m <- visited ensures m in stack || Expanded(m, visited) {
        if m in visited0 && m !in stack0 {
          assert Expanded(m, visited0);
        }
      }
      if visited != visited0 {
        var x :| x in visited && x !in visited0;
        Sets.SubsetSize(all - visited, all - visited0);
      }
    }
  }
}
