/** Recursive struct definitions: the depth-first check, and what it does and does not rule out. */
module StructCycles {
  import opened ShaderAst

  /** Direct struct-typed fields, by struct name. */
  type Deps = map<Name, seq<Name>>

  predicate Edge(d: Deps, a: Name, b: Name) {
    a in d && b in d[a]
  }

  predicate Path(d: Deps, p: seq<Name>) {
    |p| > 0 && forall i | 0 <= i < |p| - 1 :: Edge(d, p[i], p[i + 1])
  }

  predicate Repeats(p: seq<Name>) {
    exists i, j :: 0 <= i < j < |p| && p[i] == p[j]
  }

  /** A cycle can be reached from `s`. */
  ghost predicate Cyclic(d: Deps, s: Name) {
    exists p :: Path(d, p) && p[0] == s && Repeats(p)
  }

  ghost predicate Acyclic(d: Deps) {
    forall s :: !Cyclic(d, s)
  }

  /** Every struct of the list has its dependencies earlier in the list. */
  ghost predicate Sorted(d: Deps, done: seq<Name>) {
    forall i, b | 0 <= i < |done| && Edge(d, done[i], b) :: b in done[..i]
  }

  function Universe(d: Deps): set<Name> {
    d.Keys + set a, b | a in d && b in d[a] :: b
  }

  /** A path inside a sorted list walks strictly towards its front. */
  lemma {:induction false} SortedDescends(d: Deps, done: seq<Name>, p: seq<Name>, i: nat)
    requires Sorted(d, done) && Path(d, p) && i < |done| && p[0] == done[i]
    ensures forall k | 0 < k < |p| :: p[k] in done[..i]
    decreases |p|
  {
    if |p| > 1 {
      assert Edge(d, p[0], p[1]);
      var j :| 0 <= j < i && done[j] == p[1];
      assert forall k | 0 <= k < |p| - 2 :: Edge(d, p[1..][k], p[1..][k + 1]) by {
        forall k | 0 <= k < |p| - 2 ensures Edge(d, p[1..][k], p[1..][k + 1]) { assert Edge(d, p[k + 1], p[k + 2]); }
      }
      SortedDescends(d, done, p[1..], j);
      forall k | 0 < k < |p| ensures p[k] in done[..i] {
        if k > 1 {
          assert p[k] == p[1..][k - 1];
          var m :| 0 <= m < j && done[m] == p[k];
          assert done[..i][m] == p[k];
        }
      }
    }
  }

  predicate Distinct(s: seq<Name>) {
    forall i, j | 0 <= i < j < |s| :: s[i] != s[j]
  }

  lemma PathFrom(d: Deps, p: seq<Name>, k: nat)
    requires Path(d, p) && k < |p|
    ensures Path(d, p[k..]) && Path(d, p[..k + 1])
  {
    forall i | 0 <= i < |p| - k - 1 ensures Edge(d, p[k..][i], p[k..][i + 1]) {
      assert Edge(d, p[k + i], p[k + i + 1]);
    }
  }

  /** Nothing in a sorted list reaches a cycle. */
  lemma SortedIsAcyclic(d: Deps, done: seq<Name>, s: Name)
    requires Sorted(d, done) && Distinct(done) && s in done
    ensures !Cyclic(d, s)
  {
    forall p | Path(d, p) && p[0] == s ensures !Repeats(p) {
      forall i, j | 0 <= i < j < |p| ensures p[i] != p[j] {
        var k :| 0 <= k < |done| && done[k] == s;
        if i > 0 {
          SortedDescends(d, done, p, k);
          k :| 0 <= k < |done| && done[k] == p[i];
        }
        PathFrom(d, p, i);
        SortedDescends(d, done, p[i..], k);
        assert p[i..][j - i] == p[j];
        var m :| 0 <= m < k && done[m] == p[j];
      }
    }
  }

  lemma PathExtends(d: Deps, p: seq<Name>, x: Name)
    requires Path(d, p) && Edge(d, p[|p| - 1], x)
    ensures Path(d, p + [x])
  {
  }

  class Checker {
    var deps: Deps
    var visited: set<Name>
    var onStack: set<Name>
    ghost var done: seq<Name>
    var errorCount: nat

    constructor (deps: Deps)
      ensures this.deps == deps && errorCount == 0
    {
      this.deps := deps;
      visited, onStack, done, errorCount := {}, {}, [], 0;
    }

    ghost predicate Valid(stack: seq<Name>)
      reads this
    {
      && (forall x :: x in onStack <==> x in stack)
      && (forall x :: x in visited <==> x in stack || x in done)
      && (forall x | x in stack :: x !in done)
      && Sorted(deps, done) && Distinct(done)
    }

    /** True as soon as an edge back onto the stack is found; the sets are left as they are then. */
    method HasCycleFrom(start: Name, ghost stack: seq<Name>) returns (found: bool)
      requires Valid(stack) && start !in visited && Path(deps, stack + [start])
      modifies `visited, `onStack, `done
      ensures found ==> Cyclic(deps, (stack + [start])[0])
      ensures !found ==> Valid(stack) && start in done && old(visited) <= visited
      decreases Universe(deps) + {start} - visited
    {
      visited := visited + {start};
      onStack := onStack + {start};
      ghost var longer := stack + [start];
      assert longer[|stack|] == start;
      var next := if start in deps then deps[start] else [];
      for k := 0 to |next|
        invariant Valid(longer) && old(visited) + {start} <= visited
        invariant forall i | 0 <= i < k :: next[i] in done
      {
        var dep := next[k];
        PathExtends(deps, longer, dep);
        if dep !in visited {
          var deeper := HasCycleFrom(dep, longer);
          if deeper { return true; }
        } else if dep in onStack {
          BackEdge(deps, longer, dep);
          return true;
        }
      }
      Finish(start, stack, next);
      return false;
    }

    method Finish(start: Name, ghost stack: seq<Name>, next: seq<Name>)
      requires Valid(stack + [start]) && start !in stack && next == (if start in deps then deps[start] else [])
      requires forall i | 0 <= i < |next| :: next[i] in done
      modifies `onStack, `done
      ensures Valid(stack) && start in done
    {
      assert (stack + [start])[|stack|] == start;
      onStack := onStack - {start};
      ghost var before := done;
      done := done + [start];
      forall i, b | 0 <= i < |done| && Edge(deps, done[i], b) ensures b in done[..i] {
        assert done[..i] == if i < |before| then before[..i] else before;
        assert i < |before| ==> done[i] == before[i];
      }
    }

    /** hasCycleFrom with fresh sets, as detectCycles calls it. */
    method Check(name: Name) returns (found: bool)
      modifies `visited, `onStack, `done
      ensures found <==> Cyclic(deps, name)
    {
      visited, onStack, done := {}, {}, [];
      assert ([] + [name])[0] == name;
      found := HasCycleFrom(name, []);
      if !found { SortedIsAcyclic(deps, done, name); }
    }

    /** detectCycles: every struct from which a cycle can be reached is reported and loses its dependencies. */
    method DetectCycles(names: seq<Name>)
      requires forall a | a in deps :: a in names
      requires errorCount == 0
      modifies this
      ensures errorCount == 0 <==> Acyclic(old(deps))
      ensures errorCount == 0 ==> deps == old(deps)
      ensures Acyclic(deps)
      ensures deps.Keys <= old(deps.Keys) && forall a | a in deps :: deps[a] == old(deps)[a]
    {
      for k := 0 to |names|
        invariant forall i | 0 <= i < k :: !Cyclic(deps, names[i])
        invariant errorCount == 0 ==> deps == old(deps)
        invariant errorCount > 0 ==> !Acyclic(old(deps))
        invariant deps.Keys <= old(deps.Keys) && forall a | a in deps :: deps[a] == old(deps)[a]
      {
        var found := Check(names[k]);
        if found {
          ghost var before := deps;
          CyclicGrows(deps, old(deps), names[k]);
          errorCount := errorCount + 1;
          deps := deps - {names[k]};
          forall i | 0 <= i <= k ensures !Cyclic(deps, names[i]) {
            if i == k { NoDepsNoCycle(deps, names[k]); }
            else { AcyclicShrinks(deps, before, names[i]); }
          }
        }
      }
      forall s ensures !Cyclic(deps, s) {
        if s !in deps { NoDepsNoCycle(deps, s); }
      }
    }
  }

  lemma BackEdge(d: Deps, stack: seq<Name>, dep: Name)
    requires Path(d, stack + [dep]) && dep in stack
    ensures Cyclic(d, stack[0])
  {
    var p := stack + [dep];
    var i :| 0 <= i < |stack| && stack[i] == dep;
    assert p[i] == p[|stack|] && p[0] == stack[0];
    assert Repeats(p);
  }

  lemma CyclicGrows(d: Deps, larger: Deps, s: Name)
    requires Cyclic(d, s) && d.Keys <= larger.Keys && forall a | a in d :: d[a] == larger[a]
    ensures Cyclic(larger, s)
  {
    var p :| Path(d, p) && p[0] == s && Repeats(p);
    forall i | 0 <= i < |p| - 1 ensures Edge(larger, p[i], p[i + 1]) { assert Edge(d, p[i], p[i + 1]); }
  }

  lemma AcyclicShrinks(d: Deps, larger: Deps, s: Name)
    requires !Cyclic(larger, s) && d.Keys <= larger.Keys && forall a | a in d :: d[a] == larger[a]
    ensures !Cyclic(d, s)
  {
    if Cyclic(d, s) { CyclicGrows(d, larger, s); }
  }

  lemma NoDepsNoCycle(d: Deps, s: Name)
    requires s !in d
    ensures !Cyclic(d, s)
  {
    forall p | Path(d, p) && p[0] == s ensures !Repeats(p) {
      assert |p| > 1 ==> Edge(d, p[0], p[1]);
    }
  }
}
