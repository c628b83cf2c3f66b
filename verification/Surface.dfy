/** Triangle meshes as oriented surfaces, and what splitting every triangle in four does to them. */
module Surface {

  datatype Triangle = Triangle(a: nat, b: nat, c: nat)

  type Edge = (nat, nat)

  /** The directed edges of a triangle in order. */
  function EdgeOf(t: Triangle, s: nat): Edge
    requires s < 3
  {
    if s == 0 then (t.a, t.b) else if s == 1 then (t.b, t.c) else (t.c, t.a)
  }

  function Flip(e: Edge): Edge {
    (e.1, e.0)
  }

  function Corners(t: Triangle): set<nat> {
    {t.a, t.b, t.c}
  }

  predicate Proper(t: Triangle, n: nat) {
    t.a != t.b && t.b != t.c && t.c != t.a && t.a < n && t.b < n && t.c < n
  }

  /** Each directed edge occurs once. */
  predicate EdgesUnique(ts: seq<Triangle>) {
    forall i, s, j, r | 0 <= i < |ts| && 0 <= s < 3 && 0 <= j < |ts| && 0 <= r < 3 &&
      EdgeOf(ts[i], s) == EdgeOf(ts[j], r) :: i == j && s == r
  }

  predicate HasEdge(ts: seq<Triangle>, e: Edge) {
    exists j, r :: 0 <= j < |ts| && 0 <= r < 3 && EdgeOf(ts[j], r) == e
  }

  /** A closed, consistently oriented surface over vertices below `n`: every directed edge once, its reverse once. */
  predicate Closed(ts: seq<Triangle>, n: nat) {
    && (forall i | 0 <= i < |ts| :: Proper(ts[i], n))
    && EdgesUnique(ts)
    && (forall i, s | 0 <= i < |ts| && 0 <= s < 3 :: HasEdge(ts, Flip(EdgeOf(ts[i], s))))
  }

  /** No two triangles lie back to back on the same three vertices. */
  predicate NoTwins(ts: seq<Triangle>) {
    forall i, j | 0 <= i < j < |ts| :: Corners(ts[i]) != Corners(ts[j])
  }

  /** edgeKey: the ends in order. */
  function Key(a: nat, b: nat): Edge {
    if a > b then (b, a) else (a, b)
  }

  /** The key as one 64-bit number is as good as the pair. */
  lemma KeyPacks(a: nat, b: nat, c: nat, d: nat)
    requires a < 0x1_0000_0000 && b < 0x1_0000_0000 && c < 0x1_0000_0000 && d < 0x1_0000_0000
    ensures
      var k, l := Key(a, b), Key(c, d);
      k.0 * 0x1_0000_0000 + k.1 == l.0 * 0x1_0000_0000 + l.1 <==> k == l
  {
  }

  /** The midpoint of every edge of the surface: a new vertex, one for each undirected edge. */
  type Mid = map<Edge, nat>

  predicate Covers(mid: Mid, ts: seq<Triangle>) {
    forall i, s | 0 <= i < |ts| && 0 <= s < 3 :: var e := EdgeOf(ts[i], s); Key(e.0, e.1) in mid
  }

  predicate Fresh(mid: Mid, n: nat) {
    && (forall k | k in mid :: mid[k] >= n)
    && (forall k, l | k in mid && l in mid && mid[k] == mid[l] :: k == l)
  }

  function M(mid: Mid, e: Edge): nat {
    if Key(e.0, e.1) in mid then mid[Key(e.0, e.1)] else 0
  }

  /** One triangle split in four: the corners, then the middle. */
  function Part(t: Triangle, mid: Mid, q: nat): Triangle
    requires q < 4
  {
    var ab, bc, ca := M(mid, (t.a, t.b)), M(mid, (t.b, t.c)), M(mid, (t.c, t.a));
    if q == 0 then Triangle(t.a, ab, ca)
    else if q == 1 then Triangle(t.b, bc, ab)
    else if q == 2 then Triangle(t.c, ca, bc)
    else Triangle(ab, bc, ca)
  }

  ghost predicate IsSplit(ts: seq<Triangle>, mid: Mid, next: seq<Triangle>) {
    |next| == 4 * |ts| && forall i, q | 0 <= i < |ts| && 0 <= q < 4 :: next[4 * i + q] == Part(ts[i], mid, q)
  }

  // ---- the edges of a split surface ----

  /** Halves of an old edge. */
  function HalfOut(t: Triangle, mid: Mid, s: nat): Edge
    requires s < 3
  {
    (EdgeOf(t, s).0, M(mid, EdgeOf(t, s)))
  }

  function HalfIn(t: Triangle, mid: Mid, s: nat): Edge
    requires s < 3
  {
    (M(mid, EdgeOf(t, s)), EdgeOf(t, s).1)
  }

  /** A new edge from the midpoint of edge `s` to that of edge `r`. */
  function Across(t: Triangle, mid: Mid, s: nat, r: nat): Edge
    requires s < 3 && r < 3
  {
    (M(mid, EdgeOf(t, s)), M(mid, EdgeOf(t, r)))
  }

  function Next(s: nat): nat {
    if s == 2 then 0 else s + 1
  }

  function Prev(s: nat): nat {
    if s == 0 then 2 else s - 1
  }

  /** Which kind each edge of each part is. */
  lemma PartEdges(t: Triangle, mid: Mid, q: nat, s: nat)
    requires q < 4 && s < 3
    ensures
      var e := EdgeOf(Part(t, mid, q), s);
      if q == 3 then e == Across(t, mid, s, Next(s))
      else if s == 0 then e == HalfOut(t, mid, q)
      else if s == 1 then e == Across(t, mid, q, Prev(q))
      else e == HalfIn(t, mid, Prev(q))
  {
  }

  /** Midpoints tell undirected edges apart. */
  lemma MidsDiffer(mid: Mid, n: nat, e: Edge, f: Edge)
    requires Fresh(mid, n) && Key(e.0, e.1) in mid && Key(f.0, f.1) in mid && M(mid, e) == M(mid, f)
    ensures f == e || f == Flip(e)
  {
  }

  /** What is known of a surface and the midpoints of its edges. */
  ghost predicate Ready(ts: seq<Triangle>, n: nat, mid: Mid) {
    Closed(ts, n) && Covers(mid, ts) && Fresh(mid, n)
  }

  lemma MidOf(ts: seq<Triangle>, n: nat, mid: Mid, i: nat, s: nat)
    requires Ready(ts, n, mid) && i < |ts| && s < 3
    ensures var e := EdgeOf(ts[i], s); Key(e.0, e.1) in mid && M(mid, e) >= n && e.0 < n && e.1 < n && e.0 != e.1
  {
    assert Proper(ts[i], n);
  }

  /** Edges of the surface with one midpoint are the same or each other's reverse. */
  lemma SameMid(ts: seq<Triangle>, n: nat, mid: Mid, i: nat, s: nat, j: nat, r: nat)
    requires Ready(ts, n, mid) && i < |ts| && s < 3 && j < |ts| && r < 3
    requires M(mid, EdgeOf(ts[i], s)) == M(mid, EdgeOf(ts[j], r))
    ensures EdgeOf(ts[j], r) == EdgeOf(ts[i], s) || EdgeOf(ts[j], r) == Flip(EdgeOf(ts[i], s))
    ensures i == j ==> s == r
  {
    MidOf(ts, n, mid, i, s);
    MidOf(ts, n, mid, j, r);
    MidsDiffer(mid, n, EdgeOf(ts[i], s), EdgeOf(ts[j], r));
    assert Proper(ts[i], n);
  }

  /** Two edges of a triangle have all its corners. */
  lemma TwoEdgesSpan(t: Triangle, k: nat, l: nat)
    requires k < 3 && l < 3 && k != l
    ensures Corners(t) == {EdgeOf(t, k).0, EdgeOf(t, k).1, EdgeOf(t, l).0, EdgeOf(t, l).1}
  {
  }

  /** Triangles that share the midpoints of two edges are the same triangle, where there are no twins. */
  lemma SharedMids(ts: seq<Triangle>, n: nat, mid: Mid, i: nat, k: nat, l: nat, j: nat, k': nat, l': nat)
    requires Ready(ts, n, mid) && NoTwins(ts) && i < |ts| && j < |ts|
    requires k < 3 && l < 3 && k != l && k' < 3 && l' < 3 && k' != l'
    requires M(mid, EdgeOf(ts[i], k)) == M(mid, EdgeOf(ts[j], k'))
    requires M(mid, EdgeOf(ts[i], l)) == M(mid, EdgeOf(ts[j], l'))
    ensures i == j && k == k' && l == l'
  {
    SameMid(ts, n, mid, i, k, j, k');
    SameMid(ts, n, mid, i, l, j, l');
    TwoEdgesSpan(ts[i], k, l);
    TwoEdgesSpan(ts[j], k', l');
    assert Corners(ts[i]) == Corners(ts[j]);
    assert i == j;
  }

  predicate OutPart(q: nat, s: nat) { q < 3 && s == 0 }
  predicate InPart(q: nat, s: nat) { q < 3 && s == 2 }

  /** Where the ends of an edge of a part lie: old vertices below `n`, new ones not. */
  lemma PartEnds(ts: seq<Triangle>, n: nat, mid: Mid, i: nat, q: nat, s: nat)
    requires Ready(ts, n, mid) && i < |ts| && q < 4 && s < 3
    ensures
      var e := EdgeOf(Part(ts[i], mid, q), s);
      (e.0 < n <==> OutPart(q, s)) && (e.1 < n <==> InPart(q, s))
  {
    PartEdges(ts[i], mid, q, s);
    MidOf(ts, n, mid, i, 0);
    MidOf(ts, n, mid, i, 1);
    MidOf(ts, n, mid, i, 2);
  }

  lemma SameOut(ts: seq<Triangle>, n: nat, mid: Mid, i: nat, q: nat, j: nat, p: nat)
    requires Ready(ts, n, mid) && i < |ts| && j < |ts| && q < 3 && p < 3
    requires HalfOut(ts[i], mid, q) == HalfOut(ts[j], mid, p)
    ensures i == j && q == p
  {
    SameMid(ts, n, mid, i, q, j, p);
    MidOf(ts, n, mid, i, q);
    assert EdgeOf(ts[i], q) == EdgeOf(ts[j], p);
  }

  lemma SameIn(ts: seq<Triangle>, n: nat, mid: Mid, i: nat, q: nat, j: nat, p: nat)
    requires Ready(ts, n, mid) && i < |ts| && j < |ts| && q < 3 && p < 3
    requires HalfIn(ts[i], mid, q) == HalfIn(ts[j], mid, p)
    ensures i == j && q == p
  {
    SameMid(ts, n, mid, i, q, j, p);
    MidOf(ts, n, mid, i, q);
    assert EdgeOf(ts[i], q) == EdgeOf(ts[j], p);
  }

  /** The two old edges that a new edge of part `q` joins. */
  function From(q: nat, s: nat): nat
    requires q < 4 && s < 3
  {
    if q == 3 then s else q
  }

  function To(q: nat, s: nat): nat
    requires q < 4 && s < 3
  {
    if q == 3 then Next(s) else Prev(q)
  }

  lemma SameAcross(q: nat, s: nat, p: nat, r: nat)
    requires q < 4 && p < 4 && s < 3 && r < 3
    requires q == 3 || s == 1
    requires p == 3 || r == 1
    requires From(q, s) == From(p, r) && To(q, s) == To(p, r)
    ensures q == p && s == r
  {
  }

  lemma SamePosition(ts: seq<Triangle>, n: nat, mid: Mid, i: nat, q: nat, s: nat, j: nat, p: nat, r: nat)
    requires Ready(ts, n, mid) && NoTwins(ts) && i < |ts| && j < |ts| && q < 4 && p < 4 && s < 3 && r < 3
    requires EdgeOf(Part(ts[i], mid, q), s) == EdgeOf(Part(ts[j], mid, p), r)
    ensures i == j && q == p && s == r
  {
    PartEnds(ts, n, mid, i, q, s);
    PartEnds(ts, n, mid, j, p, r);
    PartEdges(ts[i], mid, q, s);
    PartEdges(ts[j], mid, p, r);
    if OutPart(q, s) {
      SameOut(ts, n, mid, i, q, j, p);
    } else if InPart(q, s) {
      SameIn(ts, n, mid, i, Prev(q), j, Prev(p));
    } else {
      SharedMids(ts, n, mid, i, From(q, s), To(q, s), j, From(p, r), To(p, r));
      SameAcross(q, s, p, r);
    }
  }

  /** The reverse of an edge of a part is an edge of a part. */
  lemma FlipPosition(ts: seq<Triangle>, n: nat, mid: Mid, i: nat, q: nat, s: nat) returns (j: nat, p: nat, r: nat)
    requires Ready(ts, n, mid) && i < |ts| && q < 4 && s < 3
    ensures j < |ts| && p < 4 && r < 3
    ensures EdgeOf(Part(ts[j], mid, p), r) == Flip(EdgeOf(Part(ts[i], mid, q), s))
  {
    PartEdges(ts[i], mid, q, s);
    if OutPart(q, s) {
      var k;
      j, k := FlipEdge(ts, n, i, q);
      p, r := Next(k), 2;
    } else if InPart(q, s) {
      j, p := FlipEdge(ts, n, i, Prev(q));
      r := 0;
    } else if q == 3 {
      j, p, r := i, Next(s), 1;
    } else {
      j, p, r := i, 3, Prev(q);
    }
    PartEdges(ts[j], mid, p, r);
  }

  lemma FlipEdge(ts: seq<Triangle>, n: nat, i: nat, s: nat) returns (j: nat, r: nat)
    requires Closed(ts, n) && i < |ts| && s < 3
    ensures j < |ts| && r < 3 && EdgeOf(ts[j], r) == Flip(EdgeOf(ts[i], s))
  {
    assert HasEdge(ts, Flip(EdgeOf(ts[i], s)));
    j, r :| 0 <= j < |ts| && 0 <= r < 3 && EdgeOf(ts[j], r) == Flip(EdgeOf(ts[i], s));
  }

  lemma PartProper(ts: seq<Triangle>, n: nat, mid: Mid, n': nat, i: nat, q: nat)
    requires Ready(ts, n, mid) && i < |ts| && q < 4 && n <= n' && forall k | k in mid :: mid[k] < n'
    ensures Proper(Part(ts[i], mid, q), n')
  {
    var t := ts[i];
    assert Proper(t, n);
    MidOf(ts, n, mid, i, 0);
    MidOf(ts, n, mid, i, 1);
    MidOf(ts, n, mid, i, 2);
    assert EdgeOf(t, 0) == (t.a, t.b) && EdgeOf(t, 1) == (t.b, t.c) && EdgeOf(t, 2) == (t.c, t.a);
    if M(mid, (t.a, t.b)) == M(mid, (t.b, t.c)) { SameMid(ts, n, mid, i, 0, i, 1); }
    if M(mid, (t.b, t.c)) == M(mid, (t.c, t.a)) { SameMid(ts, n, mid, i, 1, i, 2); }
    if M(mid, (t.c, t.a)) == M(mid, (t.a, t.b)) { SameMid(ts, n, mid, i, 2, i, 0); }
  }

  lemma IndexOf(next: seq<Triangle>, ts: seq<Triangle>, mid: Mid, x: nat) returns (i: nat, q: nat)
    requires IsSplit(ts, mid, next) && x < |next|
    ensures i < |ts| && q < 4 && x == 4 * i + q && next[x] == Part(ts[i], mid, q)
  {
    i, q := x / 4, x % 4;
  }

  /** Splitting a closed surface without twins gives a closed surface. */
  lemma SplitClosed(ts: seq<Triangle>, n: nat, mid: Mid, next: seq<Triangle>, n': nat)
    requires Ready(ts, n, mid) && NoTwins(ts) && IsSplit(ts, mid, next)
    requires n <= n' && forall k | k in mid :: mid[k] < n'
    ensures Closed(next, n')
  {
    forall x | 0 <= x < |next| ensures Proper(next[x], n') {
      var i, q := IndexOf(next, ts, mid, x);
      PartProper(ts, n, mid, n', i, q);
    }
    forall x, s, y, r | 0 <= x < |next| && 0 <= s < 3 && 0 <= y < |next| && 0 <= r < 3 &&
      EdgeOf(next[x], s) == EdgeOf(next[y], r)
      ensures x == y && s == r
    {
      var i, q := IndexOf(next, ts, mid, x);
      var j, p := IndexOf(next, ts, mid, y);
      SamePosition(ts, n, mid, i, q, s, j, p, r);
    }
    forall x, s | 0 <= x < |next| && 0 <= s < 3 ensures HasEdge(next, Flip(EdgeOf(next[x], s))) {
      var i, q := IndexOf(next, ts, mid, x);
      var j, p, r := FlipPosition(ts, n, mid, i, q, s);
      assert next[4 * j + p] == Part(ts[j], mid, p);
    }
  }

  // ---- twins ----

  lemma SameCorners(ts: seq<Triangle>, n: nat, mid: Mid, i: nat, q: nat, j: nat, p: nat)
    requires Ready(ts, n, mid) && NoTwins(ts) && i < |ts| && j < |ts| && q < 4 && p < 4
    requires Corners(Part(ts[i], mid, q)) == Corners(Part(ts[j], mid, p))
    ensures i == j && q == p
  {
    CornerKinds(ts, n, mid, i, q);
    CornerKinds(ts, n, mid, j, p);
    if q == 3 {
      SameMiddles(ts, n, mid, i, j);
    } else {
      var m, l := M(mid, EdgeOf(ts[i], q)), M(mid, EdgeOf(ts[i], Prev(q)));
      var m', l' := M(mid, EdgeOf(ts[j], p)), M(mid, EdgeOf(ts[j], Prev(p)));
      MidsOfTriangle(ts, n, mid, i, q, Prev(q));
      SamePair(EdgeOf(ts[i], q).0, m, l, EdgeOf(ts[j], p).0, m', l', n);
      if m == m' {
        SharedMids(ts, n, mid, i, q, Prev(q), j, p, Prev(p));
      } else {
        SharedMids(ts, n, mid, i, q, Prev(q), j, Prev(p), p);
      }
    }
  }

  lemma SamePair(x: nat, m: nat, l: nat, x': nat, m': nat, l': nat, n: nat)
    requires {x, m, l} == {x', m', l'} && x < n && x' < n && m >= n && l >= n && m' >= n && l' >= n && m != l
    ensures (m == m' && l == l') || (m == l' && l == m')
  {
    assert m in {x', m', l'} && l in {x', m', l'};
  }

  /** Different edges of a triangle have different midpoints. */
  lemma MidsOfTriangle(ts: seq<Triangle>, n: nat, mid: Mid, i: nat, k: nat, l: nat)
    requires Ready(ts, n, mid) && i < |ts| && k < 3 && l < 3 && k != l
    ensures M(mid, EdgeOf(ts[i], k)) != M(mid, EdgeOf(ts[i], l))
  {
    if M(mid, EdgeOf(ts[i], k)) == M(mid, EdgeOf(ts[i], l)) { SameMid(ts, n, mid, i, k, i, l); }
  }

  /** The corners of a part: one old vertex and two midpoints, or three midpoints. */
  lemma CornerKinds(ts: seq<Triangle>, n: nat, mid: Mid, i: nat, q: nat)
    requires Ready(ts, n, mid) && i < |ts| && q < 4
    ensures forall v | v in Corners(Part(ts[i], mid, q)) && v < n :: q < 3 && v == EdgeOf(ts[i], q).0
    ensures q < 3 ==>
              && EdgeOf(ts[i], q).0 < n
              && Corners(Part(ts[i], mid, q))
                 == {EdgeOf(ts[i], q).0, M(mid, EdgeOf(ts[i], q)), M(mid, EdgeOf(ts[i], Prev(q)))}
    ensures q < 3 ==> M(mid, EdgeOf(ts[i], q)) >= n && M(mid, EdgeOf(ts[i], Prev(q))) >= n
    ensures q == 3 ==>
              Corners(Part(ts[i], mid, q))
              == {M(mid, EdgeOf(ts[i], 0)), M(mid, EdgeOf(ts[i], 1)), M(mid, EdgeOf(ts[i], 2))}
  {
    MidOf(ts, n, mid, i, 0);
    MidOf(ts, n, mid, i, 1);
    MidOf(ts, n, mid, i, 2);
  }

  lemma SameMiddles(ts: seq<Triangle>, n: nat, mid: Mid, i: nat, j: nat)
    requires Ready(ts, n, mid) && NoTwins(ts) && i < |ts| && j < |ts|
    requires Corners(Part(ts[i], mid, 3)) == Corners(Part(ts[j], mid, 3))
    ensures i == j
  {
    CornerKinds(ts, n, mid, j, 3);
    MidsOfTriangle(ts, n, mid, i, 0, 1);
    var k := MiddleCorner(ts[i], ts[j], mid, 0);
    var l := MiddleCorner(ts[i], ts[j], mid, 1);
    SharedMids(ts, n, mid, i, 0, 1, j, k, l);
  }

  lemma MiddleCorner(t: Triangle, u: Triangle, mid: Mid, s: nat) returns (k: nat)
    requires Corners(Part(t, mid, 3)) == Corners(Part(u, mid, 3)) && s < 3
    ensures k < 3 && M(mid, EdgeOf(t, s)) == M(mid, EdgeOf(u, k))
  {
    var x := M(mid, EdgeOf(t, s));
    assert x in Corners(Part(u, mid, 3));
    k := if x == M(mid, EdgeOf(u, 0)) then 0 else if x == M(mid, EdgeOf(u, 1)) then 1 else 2;
  }

  /** Splitting makes no twins. */
  lemma SplitNoTwins(ts: seq<Triangle>, n: nat, mid: Mid, next: seq<Triangle>)
    requires Ready(ts, n, mid) && NoTwins(ts) && IsSplit(ts, mid, next)
    ensures NoTwins(next)
  {
    forall x, y | 0 <= x < y < |next| ensures Corners(next[x]) != Corners(next[y]) {
      var i, q := IndexOf(next, ts, mid, x);
      var j, p := IndexOf(next, ts, mid, y);
      if Corners(next[x]) == Corners(next[y]) { SameCorners(ts, n, mid, i, q, j, p); }
    }
  }

  /** Twins run in opposite directions. */
  lemma TwinsOppose(ts: seq<Triangle>, n: nat, i: nat, j: nat)
    requires Closed(ts, n) && i < |ts| && j < |ts| && i != j && Corners(ts[i]) == Corners(ts[j])
    ensures
      var t, u := ts[i], ts[j];
      u == Triangle(t.a, t.c, t.b) || u == Triangle(t.c, t.b, t.a) || u == Triangle(t.b, t.a, t.c)
  {
    var t, u := ts[i], ts[j];
    assert Proper(t, n) && Proper(u, n);
    assert u.a in Corners(t) && u.b in Corners(t) && u.c in Corners(t);
    forall r | 0 <= r < 3 ensures EdgeOf(u, r) != EdgeOf(t, 0) && EdgeOf(u, r) != EdgeOf(t, 1) && EdgeOf(u, r) != EdgeOf(t, 2) {}
    assert EdgeOf(u, 0) == (u.a, u.b) && EdgeOf(t, 0) == (t.a, t.b) && EdgeOf(t, 1) == (t.b, t.c) && EdgeOf(t, 2) == (t.c, t.a);
  }

  /** Twins give the split surface an edge that occurs twice. */
  lemma TwinsBreakSplit(ts: seq<Triangle>, n: nat, mid: Mid, next: seq<Triangle>)
    requires Ready(ts, n, mid) && IsSplit(ts, mid, next) && !NoTwins(ts)
    ensures !EdgesUnique(next)
  {
    var i, j :| 0 <= i < j < |ts| && Corners(ts[i]) == Corners(ts[j]);
    TwinsOppose(ts, n, i, j);
    var t, u := ts[i], ts[j];
    var r: nat := if u == Triangle(t.a, t.c, t.b) then 2 else if u == Triangle(t.c, t.b, t.a) then 1 else 0;
    assert EdgeOf(Part(t, mid, 0), 1) == EdgeOf(Part(u, mid, 3), r);
    assert next[4 * i + 0] == Part(t, mid, 0) && next[4 * j + 3] == Part(u, mid, 3);
    assert 4 * i + 0 != 4 * j + 3;
  }

  /** A split surface is closed exactly when the surface had no twins, and then has none itself. */
  lemma SplitClosedIff(ts: seq<Triangle>, n: nat, mid: Mid, next: seq<Triangle>, n': nat)
    requires Ready(ts, n, mid) && IsSplit(ts, mid, next)
    requires n <= n' && forall k | k in mid :: mid[k] < n'
    ensures Closed(next, n') <==> NoTwins(ts)
    ensures NoTwins(ts) ==> NoTwins(next)
  {
    if NoTwins(ts) {
      SplitClosed(ts, n, mid, next, n');
      SplitNoTwins(ts, n, mid, next);
    } else {
      TwinsBreakSplit(ts, n, mid, next);
    }
  }

  /** Two triangles back to back: a closed surface whose split is not closed. */
  const TWINS := [Triangle(0, 1, 2), Triangle(0, 2, 1)]

  /** Where a directed edge of the twins is: triangle and side in one number. */
  function TwinPlace(e: Edge): nat {
    if e == (0, 1) then 0 else if e == (1, 2) then 1 else if e == (2, 0) then 2
    else if e == (0, 2) then 3 else if e == (2, 1) then 4 else 5
  }

  lemma TwinEdge(i: nat, s: nat)
    requires i < 2 && s < 3
    ensures TwinPlace(EdgeOf(TWINS[i], s)) == 3 * i + s && Proper(TWINS[i], 3) && HasEdge(TWINS, Flip(EdgeOf(TWINS[i], s)))
  {
    assert EdgeOf(TWINS[1 - i], 2 - s) == Flip(EdgeOf(TWINS[i], s));
  }

  lemma TwinsClosed()
    ensures Closed(TWINS, 3)
  {
    forall i, s | 0 <= i < |TWINS| && 0 <= s < 3 ensures Proper(TWINS[i], 3) && HasEdge(TWINS, Flip(EdgeOf(TWINS[i], s))) {
      TwinEdge(i, s);
    }
    forall i, s, j, r | 0 <= i < |TWINS| && 0 <= s < 3 && 0 <= j < |TWINS| && 0 <= r < 3 &&
      EdgeOf(TWINS[i], s) == EdgeOf(TWINS[j], r)
      ensures i == j && s == r
    {
      TwinEdge(i, s);
      TwinEdge(j, r);
    }
  }

  lemma TwinsDoNotSplit(mid: Mid, next: seq<Triangle>, n': nat)
    requires Covers(mid, TWINS) && Fresh(mid, 3) && IsSplit(TWINS, mid, next)
    requires 3 <= n' && forall k | k in mid :: mid[k] < n'
    ensures Closed(TWINS, 3) && !Closed(next, n')
  {
    TwinsClosed();
    assert Corners(TWINS[0]) == Corners(TWINS[1]);
    SplitClosedIff(TWINS, 3, mid, next, n');
  }

  // ---- counting ----

  function Directed(ts: seq<Triangle>): set<Edge> {
    if ts == [] then {}
    else
      var t := ts[|ts| - 1];
      Directed(ts[..|ts| - 1]) + {EdgeOf(t, 0), EdgeOf(t, 1), EdgeOf(t, 2)}
  }

  lemma {:induction false} DirectedHas(ts: seq<Triangle>, e: Edge)
    ensures e in Directed(ts) <==> HasEdge(ts, e)
  {
    if ts != [] {
      var rest, t := ts[..|ts| - 1], ts[|ts| - 1];
      DirectedHas(rest, e);
      if e in Directed(ts) {
        if HasEdge(rest, e) {
          var j, r :| 0 <= j < |rest| && 0 <= r < 3 && EdgeOf(rest[j], r) == e;
          assert EdgeOf(ts[j], r) == e;
        } else {
          assert EdgeOf(t, 0) == e || EdgeOf(t, 1) == e || EdgeOf(t, 2) == e;
          assert HasEdge(ts, e);
        }
      }
      if HasEdge(ts, e) {
        var j, r :| 0 <= j < |ts| && 0 <= r < 3 && EdgeOf(ts[j], r) == e;
        if j < |rest| { assert EdgeOf(rest[j], r) == e; }
      }
    }
  }

  lemma NewEdge(ts: seq<Triangle>, s: nat)
    requires EdgesUnique(ts) && ts != [] && s < 3
    ensures EdgeOf(ts[|ts| - 1], s) !in Directed(ts[..|ts| - 1])
  {
    var rest, e := ts[..|ts| - 1], EdgeOf(ts[|ts| - 1], s);
    forall j, r | 0 <= j < |rest| && 0 <= r < 3 ensures EdgeOf(rest[j], r) != e {
      assert EdgeOf(ts[j], r) != EdgeOf(ts[|ts| - 1], s);
    }
    DirectedHas(rest, e);
  }

  lemma {:induction false} DirectedCount(ts: seq<Triangle>)
    requires EdgesUnique(ts)
    ensures |Directed(ts)| == 3 * |ts|
  {
    if ts != [] {
      var rest, t := ts[..|ts| - 1], ts[|ts| - 1];
      forall i, s, j, r | 0 <= i < |rest| && 0 <= s < 3 && 0 <= j < |rest| && 0 <= r < 3 &&
        EdgeOf(rest[i], s) == EdgeOf(rest[j], r)
        ensures i == j && s == r
      {
        assert EdgeOf(ts[i], s) == EdgeOf(ts[j], r);
      }
      DirectedCount(rest);
      NewEdge(ts, 0);
      NewEdge(ts, 1);
      NewEdge(ts, 2);
      ThreeMore(Directed(rest), EdgeOf(t, 0), EdgeOf(t, 1), EdgeOf(t, 2));
    }
  }

  lemma ThreeMore(d: set<Edge>, e: Edge, f: Edge, g: Edge)
    requires e !in d && f !in d && g !in d && e != f && f != g && e != g
    ensures |d + {e, f, g}| == |d| + 3
  {
    assert d + {e, f, g} == d + {e} + {f} + {g};
  }

  /** The undirected edges: what the midpoint cache is keyed by. */
  function Undirected(ts: seq<Triangle>): set<Edge> {
    if ts == [] then {}
    else
      var t := ts[|ts| - 1];
      Undirected(ts[..|ts| - 1]) + {Key(t.a, t.b), Key(t.b, t.c), Key(t.c, t.a)}
  }

  function KeysOf(es: set<Edge>): set<Edge> {
    set e | e in es :: Key(e.0, e.1)
  }

  lemma {:induction false} UndirectedKeys(ts: seq<Triangle>)
    ensures Undirected(ts) == KeysOf(Directed(ts))
  {
    if ts != [] {
      var rest, t := ts[..|ts| - 1], ts[|ts| - 1];
      UndirectedKeys(rest);
      var es := {EdgeOf(t, 0), EdgeOf(t, 1), EdgeOf(t, 2)};
      KeysOfUnion(Directed(rest), es);
      assert KeysOf(es) == {Key(t.a, t.b), Key(t.b, t.c), Key(t.c, t.a)} by {
        assert (t.a, t.b) in es && (t.b, t.c) in es && (t.c, t.a) in es;
      }
    }
  }

  lemma KeysOfUnion(a: set<Edge>, b: set<Edge>)
    ensures KeysOf(a + b) == KeysOf(a) + KeysOf(b)
  {
  }

  function Flips(es: set<Edge>): set<Edge> {
    set e | e in es :: Flip(e)
  }

  lemma {:induction false} FlipsCount(es: set<Edge>)
    ensures |Flips(es)| == |es|
    decreases es
  {
    if es != {} {
      var e :| e in es;
      FlipsCount(es - {e});
      assert Flips(es) == Flips(es - {e}) + {Flip(e)};
      assert Flip(e) !in Flips(es - {e});
    } else {
      assert Flips(es) == {};
    }
  }

  /** Edges that come in both directions, and join different vertices, are twice as many as undirected ones. */
  lemma HalfCount(es: set<Edge>)
    requires forall e | e in es :: Flip(e) in es && e.0 != e.1
    ensures |es| == 2 * |KeysOf(es)|
  {
    var ks := KeysOf(es);
    forall k | k in ks ensures k.0 < k.1 && k in es && Flip(k) in es {
      var e :| e in es && Key(e.0, e.1) == k;
      assert Flip(e) in es && (k == e || k == Flip(e)) && Flip(Flip(e)) == e;
    }
    forall e | e in es ensures e in ks || e in Flips(ks) {
      assert Key(e.0, e.1) in ks;
      assert Flip(Flip(e)) == e;
    }
    assert es == ks + Flips(ks);
    assert ks !! Flips(ks);
    FlipsCount(ks);
  }

  /** A closed surface has one and a half as many undirected edges as triangles. */
  lemma EdgeCount(ts: seq<Triangle>, n: nat)
    requires Closed(ts, n)
    ensures 2 * |Undirected(ts)| == 3 * |ts|
  {
    UndirectedKeys(ts);
    DirectedCount(ts);
    forall e | e in Directed(ts) ensures Flip(e) in Directed(ts) && e.0 != e.1 {
      DirectedHas(ts, e);
      var i, s :| 0 <= i < |ts| && 0 <= s < 3 && EdgeOf(ts[i], s) == e;
      assert Proper(ts[i], n) && HasEdge(ts, Flip(EdgeOf(ts[i], s)));
      DirectedHas(ts, Flip(e));
    }
    HalfCount(Directed(ts));
  }
}
