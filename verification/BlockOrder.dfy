/** The order in which the SPIR-V emitter writes a function's blocks: reverse postorder of a depth-first walk. */
module BlockOrder {

  /** A control-flow graph: the successors of every block. */
  type Cfg = seq<seq<nat>>

  predicate WellFormed(g: Cfg) {
    forall b, k | 0 <= b < |g| && 0 <= k < |g[b]| :: g[b][k] < |g|
  }

  /** A path from `entry`. */
  predicate Path(g: Cfg, entry: nat, p: seq<nat>) {
    && |p| > 0 && p[0] == entry
    && (forall i | 0 <= i < |p| :: p[i] < |g|)
    && (forall i | 0 <= i < |p| - 1 :: p[i + 1] in g[p[i]])
  }

  ghost predicate Reachable(g: Cfg, entry: nat, b: nat) {
    exists p :: Path(g, entry, p) && p[|p| - 1] == b
  }

  /** Every path from the entry to `b` goes through `d`. */
  ghost predicate Dominates(g: Cfg, entry: nat, d: nat, b: nat) {
    forall p | Path(g, entry, p) && p[|p| - 1] == b :: d in p
  }

  predicate IsBlock(g: Cfg, b: nat) {
    b < |g|
  }

  function Nodes(g: Cfg): set<nat> {
    set b: nat | b < |g| && IsBlock(g, b)
  }

  function Reverse(s: seq<nat>): (r: seq<nat>)
    ensures |r| == |s| && forall i | 0 <= i < |s| :: r[i] == s[|s| - 1 - i]
  {
    seq(|s|, i requires 0 <= i < |s| => s[|s| - 1 - i])
  }

  predicate Distinct(s: seq<nat>) {
    forall i, j | 0 <= i < j < |s| :: s[i] != s[j]
  }

  /** An order of blocks a module may contain (section 2.16.1 of the SPIR-V Specification): each reachable block
      once and nothing else, the entry first, every block after its dominators. */
  ghost predicate ValidOrder(g: Cfg, entry: nat, order: seq<nat>) {
    && Distinct(order)
    && (forall b: nat :: b in order <==> Reachable(g, entry, b))
    && |order| > 0 && order[0] == entry
    && (forall i, d: nat | 0 <= i < |order| && d != order[i] && Dominates(g, entry, d, order[i]) :: d in order[..i])
  }

  class Walk {
    const g: Cfg
    var seen: set<nat>
    var postorder: seq<nat>

    constructor (g: Cfg)
      ensures this.g == g && seen == {} && postorder == []
    {
      this.g := g;
      seen, postorder := {}, [];
    }

    /** With the blocks of `stack` under way, what is in `postorder` is finished: its successors are seen, and its
        dominators are under way or come later. */
    ghost predicate Valid(entry: nat, stack: seq<nat>)
      reads this
    {
      && WellFormed(g) && Distinct(postorder) && seen <= Nodes(g)
      && (forall b :: b in seen <==> b in postorder || b in stack)
      && (forall b | b in stack :: b !in postorder)
      && (forall b, s | b in postorder && b < |g| && s in g[b] :: s in seen)
      && (forall b | b in postorder :: Reachable(g, entry, b))
      && (forall i, d: nat | 0 <= i < |postorder| && d != postorder[i] && Dominates(g, entry, d, postorder[i]) ::
            d in stack || d in postorder[i + 1..])
    }

    /** The recursive lambda dfs; `stack` is the walk that led here. */
    method Dfs(b: nat, ghost entry: nat, ghost stack: seq<nat>)
      requires Valid(entry, stack) && Path(g, entry, stack + [b])
      modifies this
      ensures Valid(entry, stack) && b in seen && old(seen) <= seen
      ensures old(postorder) <= postorder
      ensures b !in old(seen) ==> |postorder| > 0 && postorder[|postorder| - 1] == b
      decreases Nodes(g) - seen
    {
      if b in seen { return; }
      assert (stack + [b])[|stack|] == b && IsBlock(g, b);
      seen := seen + {b};
      assert Valid(entry, stack + [b]);
      for k := 0 to |g[b]|
        invariant Valid(entry, stack + [b]) && old(seen) + {b} <= seen && old(postorder) <= postorder
        invariant forall i | 0 <= i < k :: g[b][i] in seen
      {
        assert Path(g, entry, stack + [b] + [g[b][k]]);
        Dfs(g[b][k], entry, stack + [b]);
      }
      Finish(b, entry, stack);
    }

    method Finish(b: nat, ghost entry: nat, ghost stack: seq<nat>)
      requires Valid(entry, stack + [b]) && Path(g, entry, stack + [b]) && b !in stack && b < |g|
      requires forall i | 0 <= i < |g[b]| :: g[b][i] in seen
      modifies `postorder
      ensures Valid(entry, stack) && postorder == old(postorder) + [b]
    {
      ghost var before := postorder;
      assert b in stack + [b];
      assert (stack + [b])[|stack + [b]| - 1] == b;
      forall d: nat | d != b && Dominates(g, entry, d, b) ensures d in stack {
        assert d in stack + [b];
      }
      postorder := postorder + [b];
      forall i, d: nat | 0 <= i < |postorder| && d != postorder[i] && Dominates(g, entry, d, postorder[i])
        ensures d in stack || d in postorder[i + 1..]
      {
        if i < |before| {
          assert postorder[i + 1..] == before[i + 1..] + [b];
          assert before[i] == postorder[i];
          assert d in stack + [b] || d in before[i + 1..];
        }
      }
    }

    /** The blocks in the order emitFunction writes them. */
    method Order(entry: nat) returns (rpo: seq<nat>)
      requires WellFormed(g) && entry < |g| && seen == {} && postorder == []
      modifies this
      ensures ValidOrder(g, entry, rpo)
    {
      assert Path(g, entry, [] + [entry]);
      Dfs(entry, entry, []);
      rpo := Reverse(postorder);
      forall i, d: nat | 0 <= i < |postorder| && d != postorder[i] && Dominates(g, entry, d, postorder[i])
        ensures d in postorder[i + 1..]
      {
        assert d in [] || d in postorder[i + 1..];
      }
      ReverseIsValid(g, entry, seen, postorder);
    }

    /** emitFunction: the entry block, then the rest of the order without it. */
    method WriteBlocks(entry: nat) returns (written: seq<nat>)
      requires WellFormed(g) && entry < |g| && seen == {} && postorder == []
      modifies this
      ensures ValidOrder(g, entry, written)
    {
      var rpo := Order(entry);
      written := [entry];
      for i := 0 to |rpo|
        invariant written == if i == 0 then [entry] else rpo[..i]
      {
        assert i > 0 ==> rpo[0] != rpo[i];
        if rpo[i] != entry { written := written + [rpo[i]]; }
      }
      assert rpo[..|rpo|] == rpo;
    }
  }

  /** Whatever is closed under successors and has the entry has everything reachable. */
  lemma {:induction false} ClosedHasReachable(g: Cfg, entry: nat, closed: set<nat>, p: seq<nat>)
    requires entry in closed && Path(g, entry, p)
    requires forall b, s | b in closed && b < |g| && s in g[b] :: s in closed
    ensures p[|p| - 1] in closed
    decreases |p|
  {
    if |p| > 1 {
      var q := p[..|p| - 1];
      assert Path(g, entry, q);
      ClosedHasReachable(g, entry, closed, q);
      assert p[|p| - 2 + 1] in g[p[|p| - 2]];
    }
  }

  lemma ReverseIsValid(g: Cfg, entry: nat, seen: set<nat>, post: seq<nat>)
    requires WellFormed(g) && Distinct(post) && |post| > 0 && post[|post| - 1] == entry
    requires forall b :: b in seen <==> b in post
    requires forall b, s | b in post && b < |g| && s in g[b] :: s in seen
    requires forall b | b in post :: Reachable(g, entry, b)
    requires forall i, d: nat | 0 <= i < |post| && d != post[i] && Dominates(g, entry, d, post[i]) :: d in post[i + 1..]
    ensures ValidOrder(g, entry, Reverse(post))
  {
    var order := Reverse(post);
    forall b: nat ensures b in order <==> Reachable(g, entry, b) {
      if b in order {
        var i :| 0 <= i < |order| && order[i] == b;
        assert post[|post| - 1 - i] == b;
      }
      if Reachable(g, entry, b) {
        var p :| Path(g, entry, p) && p[|p| - 1] == b;
        ClosedHasReachable(g, entry, seen, p);
        var i :| 0 <= i < |post| && post[i] == b;
        assert order[|post| - 1 - i] == b;
      }
    }
    forall i, d: nat | 0 <= i < |order| && d != order[i] && Dominates(g, entry, d, order[i]) ensures d in order[..i] {
      var k := |post| - 1 - i;
      assert d in post[k + 1..];
      var j :| k + 1 <= j < |post| && post[j] == d;
      assert order[|post| - 1 - j] == d;
    }
  }
}
