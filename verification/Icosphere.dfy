/** The icosphere generator: subdivision with a midpoint cache. */
module Icosphere {
  import opened Surface

  /** A midpoint projection that does not mind the order of its arguments. */
  ghost predicate Symmetric<P(!new)>(blend: (P, P) -> P) {
    forall x, y :: SameEitherWay(blend, x, y)
  }

  ghost predicate SameEitherWay<P(!new)>(blend: (P, P) -> P, x: P, y: P) {
    blend(x, y) == blend(y, x)
  }

  /** Since a step began with `n` vertices, every cached edge has added exactly one. */
  ghost predicate Numbered(mid: Mid, n: nat, count: nat) {
    && Fresh(mid, n) && count == n + |mid|
    && (forall k | k in mid :: mid[k] < count && k.0 < n && k.1 < n)
  }

  /** ... and it lies at the edge's midpoint. */
  ghost predicate Placed<P(!new)>(blend: (P, P) -> P, vs: seq<P>, mid: Mid, n: nat)
    requires Numbered(mid, n, |vs|)
  {
    forall k | k in mid :: vs[mid[k]] == blend(vs[k.0], vs[k.1])
  }

  /** Later entries leave earlier ones alone. */
  predicate Extends(mid: Mid, later: Mid) {
    forall k | k in mid :: k in later && later[k] == mid[k]
  }

  lemma OneMoreKey(mid: Mid, k: Edge, id: nat)
    requires k !in mid
    ensures mid[k := id].Keys == mid.Keys + {k} && |mid[k := id]| == |mid| + 1 && Extends(mid, mid[k := id])
  {
    var m := mid[k := id];
    assert m.Keys == mid.Keys + {k} && |m| == |m.Keys| && |mid| == |mid.Keys|;
  }

  lemma OneMore(mid: Mid, n: nat, count: nat, k: Edge)
    requires Numbered(mid, n, count) && k !in mid && k.0 < n && k.1 < n
    ensures Numbered(mid[k := count], n, count + 1)
  {
    OneMoreKey(mid, k, count);
    StillFresh(mid, n, count, k);
  }

  lemma StillFresh(mid: Mid, n: nat, count: nat, k: Edge)
    requires Fresh(mid, n) && n <= count && forall l | l in mid :: mid[l] < count
    ensures Fresh(mid[k := count], n)
  {
  }

  lemma OneMorePlaced<P(!new)>(blend: (P, P) -> P, vs: seq<P>, mid: Mid, n: nat, a: nat, b: nat)
    requires Symmetric(blend) && Numbered(mid, n, |vs|) && Placed(blend, vs, mid, n) && a < n && b < n
    requires Key(a, b) !in mid
    ensures
      var m, us := mid[Key(a, b) := |vs|], vs + [blend(vs[a], vs[b])];
      Numbered(m, n, |us|) && Placed(blend, us, m, n)
  {
    var k := Key(a, b);
    var m, us := mid[k := |vs|], vs + [blend(vs[a], vs[b])];
    OneMore(mid, n, |vs|, k);
    assert SameEitherWay(blend, vs[a], vs[b]);
    forall l | l in m ensures us[m[l]] == blend(us[l.0], us[l.1]) {
      if l != k { assert l in mid; }
    }
  }

  function Four(t: Triangle, mid: Mid): seq<Triangle> {
    [Part(t, mid, 0), Part(t, mid, 1), Part(t, mid, 2), Part(t, mid, 3)]
  }

  lemma ThreeMids(t: Triangle, m0: Mid, m1: Mid, m2: Mid, m3: Mid, ab: nat, bc: nat, ca: nat)
    requires Extends(m0, m1) && Extends(m1, m2) && Extends(m2, m3)
    requires Key(t.a, t.b) in m1 && m1[Key(t.a, t.b)] == ab && Key(t.b, t.c) in m2 && m2[Key(t.b, t.c)] == bc
    requires Key(t.c, t.a) in m3 && m3[Key(t.c, t.a)] == ca
    ensures Extends(m0, m3)
    ensures Four(t, m3) == [Triangle(t.a, ab, ca), Triangle(t.b, bc, ab), Triangle(t.c, ca, bc), Triangle(ab, bc, ca)]
  {
  }

  lemma PrefixTrans<T>(a: seq<T>, b: seq<T>, c: seq<T>)
    requires a <= b <= c
    ensures a <= c
  {
  }

  lemma ThreeKeys(s: set<Edge>, x: Edge, y: Edge, z: Edge)
    ensures s + {x} + {y} + {z} == s + {x, y, z}
  {
  }

  /** The vertex and triangle lists, and the cache of one subdivision step. */
  class Mesh<P(!new)> {
    const blend: (P, P) -> P
    var vs: seq<P>
    var tris: seq<Triangle>
    var mid: Mid

    constructor (blend: (P, P) -> P, vs: seq<P>, tris: seq<Triangle>)
      ensures this.blend == blend && this.vs == vs && this.tris == tris && mid == map[]
    {
      this.blend, this.vs, this.tris, mid := blend, vs, tris, map[];
    }

    ghost predicate Cached(n: nat)
      reads this
    {
      Symmetric(blend) && Numbered(mid, n, |vs|) && Placed(blend, vs, mid, n)
    }

    method GetMid(a: nat, b: nat, ghost n: nat) returns (id: nat)
      requires Cached(n) && a < n && b < n
      modifies `vs, `mid
      ensures Cached(n) && Key(a, b) in mid && id == mid[Key(a, b)]
      ensures old(vs) <= vs && mid.Keys == old(mid).Keys + {Key(a, b)} && Extends(old(mid), mid)
    {
      var k := Key(a, b);
      if k in mid { return mid[k]; }
      OneMoreKey(mid, k, |vs|);
      OneMorePlaced(blend, vs, mid, n, a, b);
      id := |vs|;
      vs := vs + [blend(vs[a], vs[b])];
      mid := mid[k := id];
    }

    /** One triangle's four. */
    method Split(t: Triangle, ghost n: nat) returns (four: seq<Triangle>)
      requires Cached(n) && Proper(t, n)
      modifies `vs, `mid
      ensures Cached(n) && four == Four(t, mid)
      ensures old(vs) <= vs && Extends(old(mid), mid)
      ensures mid.Keys == old(mid).Keys + {Key(t.a, t.b), Key(t.b, t.c), Key(t.c, t.a)}
    {
      ghost var m0, v0 := mid, vs;
      var ab := GetMid(t.a, t.b, n);
      ghost var m1, v1 := mid, vs;
      var bc := GetMid(t.b, t.c, n);
      PrefixTrans(v0, v1, vs);
      ghost var m2, v2 := mid, vs;
      var ca := GetMid(t.c, t.a, n);
      PrefixTrans(v0, v2, vs);
      ThreeMids(t, m0, m1, m2, mid, ab, bc, ca);
      ThreeKeys(m0.Keys, Key(t.a, t.b), Key(t.b, t.c), Key(t.c, t.a));
      four := [Triangle(t.a, ab, ca), Triangle(t.b, bc, ab), Triangle(t.c, ca, bc), Triangle(ab, bc, ca)];
    }

    /** One subdivision step. */
    method Subdivide()
      requires Symmetric(blend) && Closed(tris, |vs|) && NoTwins(tris)
      modifies this
      ensures Closed(tris, |vs|) && NoTwins(tris)
      ensures IsSplit(old(tris), mid, tris) && mid.Keys == Undirected(old(tris))
      ensures Cached(|old(vs)|) && old(vs) <= vs
    {
      ghost var n, before := |vs|, tris;
      var next := [];
      mid := map[];
      for i := 0 to |tris|
        invariant tris == before && Cached(n) && old(vs) <= vs
        invariant mid.Keys == Undirected(tris[..i]) && IsSplit(tris[..i], mid, next)
      {
        ghost var cache := mid;
        var four := Split(tris[i], n);
        KeysGrow(tris, i);
        SplitGrows(tris[..i], cache, next, tris[i], mid, four);
        next := next + four;
      }
      assert tris[..|tris|] == tris;
      CacheCovers(tris, mid);
      SplitSurface(tris, n, mid, next, |vs|);
      tris := next;
    }
  }

  lemma KeysGrow(ts: seq<Triangle>, i: nat)
    requires i < |ts|
    ensures ts[..i] + [ts[i]] == ts[..i + 1]
    ensures Undirected(ts[..i + 1]) ==
            Undirected(ts[..i]) + {Key(ts[i].a, ts[i].b), Key(ts[i].b, ts[i].c), Key(ts[i].c, ts[i].a)}
  {
    assert ts[..i + 1][..i] == ts[..i];
  }

  lemma SplitSurface(ts: seq<Triangle>, n: nat, mid: Mid, next: seq<Triangle>, count: nat)
    requires Closed(ts, n) && NoTwins(ts) && Covers(mid, ts) && Numbered(mid, n, count) && IsSplit(ts, mid, next)
    ensures Closed(next, count) && NoTwins(next)
  {
    SplitClosedIff(ts, n, mid, next, count);
  }

  lemma UndirectedHas(ts: seq<Triangle>, i: nat, s: nat)
    requires i < |ts| && s < 3
    ensures Key(EdgeOf(ts[i], s).0, EdgeOf(ts[i], s).1) in Undirected(ts)
  {
    UndirectedKeys(ts);
    DirectedHas(ts, EdgeOf(ts[i], s));
    assert HasEdge(ts, EdgeOf(ts[i], s));
  }

  /** The cache has every edge that was split. */
  lemma CacheCovers(ts: seq<Triangle>, mid: Mid)
    requires mid.Keys == Undirected(ts)
    ensures Covers(mid, ts)
  {
    forall i, s | 0 <= i < |ts| && 0 <= s < 3 ensures var e := EdgeOf(ts[i], s); Key(e.0, e.1) in mid.Keys {
      UndirectedHas(ts, i, s);
    }
  }

  /** What was split stays split as the cache grows. */
  lemma SplitGrows(ts: seq<Triangle>, mid: Mid, next: seq<Triangle>, t: Triangle, later: Mid, four: seq<Triangle>)
    requires mid.Keys == Undirected(ts) && Extends(mid, later) && IsSplit(ts, mid, next)
    requires four == Four(t, later)
    ensures IsSplit(ts + [t], later, next + four)
  {
    CacheCovers(ts, mid);
    forall i, q | 0 <= i < |ts + [t]| && 0 <= q < 4 ensures (next + four)[4 * i + q] == Part((ts + [t])[i], later, q) {
      if i < |ts| {
        assert next[4 * i + q] == Part(ts[i], mid, q);
        SamePart(ts, mid, i, later, q);
      } else {
        assert (next + four)[4 * i + q] == four[q];
      }
    }
  }

  lemma SamePart(ts: seq<Triangle>, mid: Mid, i: nat, later: Mid, q: nat)
    requires Covers(mid, ts) && Extends(mid, later) && i < |ts| && q < 4
    ensures Part(ts[i], later, q) == Part(ts[i], mid, q)
  {
    var t := ts[i];
    assert EdgeOf(t, 0) == (t.a, t.b) && EdgeOf(t, 1) == (t.b, t.c) && EdgeOf(t, 2) == (t.c, t.a);
  }

  // ---- the base icosahedron ----

  function BaseTriangle(i: nat): Triangle {
    if i == 0 then Triangle(0, 11, 5)
    else if i == 1 then Triangle(0, 5, 1)
    else if i == 2 then Triangle(0, 1, 7)
    else if i == 3 then Triangle(0, 7, 10)
    else if i == 4 then Triangle(0, 10, 11)
    else if i == 5 then Triangle(1, 5, 9)
    else if i == 6 then Triangle(5, 11, 4)
    else if i == 7 then Triangle(11, 10, 2)
    else if i == 8 then Triangle(10, 7, 6)
    else if i == 9 then Triangle(7, 1, 8)
    else if i == 10 then Triangle(3, 9, 4)
    else if i == 11 then Triangle(3, 4, 2)
    else if i == 12 then Triangle(3, 2, 6)
    else if i == 13 then Triangle(3, 6, 8)
    else if i == 14 then Triangle(3, 8, 9)
    else if i == 15 then Triangle(4, 9, 5)
    else if i == 16 then Triangle(2, 4, 11)
    else if i == 17 then Triangle(6, 2, 10)
    else if i == 18 then Triangle(8, 6, 7)
    else Triangle(9, 8, 1)
  }

  const BASE: seq<Triangle> := seq(20, i requires 0 <= i < 20 => BaseTriangle(i))

  /** Where the directed edge from `u` to `v` is: three times its triangle, plus its place there. */
  function Where(u: nat, v: nat): nat {
    if u == 0 then if v == 1 then 6 else if v == 5 then 3 else if v == 7 then 9 else if v == 10 then 12 else if v == 11 then 0 else 60
    else if u == 1 then if v == 0 then 5 else if v == 5 then 15 else if v == 7 then 7 else if v == 8 then 28 else if v == 9 then 59 else 60
    else if u == 2 then if v == 3 then 35 else if v == 4 then 48 else if v == 6 then 37 else if v == 10 then 52 else if v == 11 then 23 else 60
    else if u == 3 then if v == 2 then 36 else if v == 4 then 33 else if v == 6 then 39 else if v == 8 then 42 else if v == 9 then 30 else 60
    else if u == 4 then if v == 2 then 34 else if v == 3 then 32 else if v == 5 then 20 else if v == 9 then 45 else if v == 11 then 49 else 60
    else if u == 5 then if v == 0 then 2 else if v == 1 then 4 else if v == 4 then 47 else if v == 9 then 16 else if v == 11 then 18 else 60
    else if u == 6 then if v == 2 then 51 else if v == 3 then 38 else if v == 7 then 55 else if v == 8 then 40 else if v == 10 then 26 else 60
    else if u == 7 then if v == 0 then 8 else if v == 1 then 27 else if v == 6 then 25 else if v == 8 then 56 else if v == 10 then 10 else 60
    else if u == 8 then if v == 1 then 58 else if v == 3 then 41 else if v == 6 then 54 else if v == 7 then 29 else if v == 9 then 43 else 60
    else if u == 9 then if v == 1 then 17 else if v == 3 then 44 else if v == 4 then 31 else if v == 5 then 46 else if v == 8 then 57 else 60
    else if u == 10 then if v == 0 then 11 else if v == 2 then 22 else if v == 6 then 53 else if v == 7 then 24 else if v == 11 then 13 else 60
    else if u == 11 then if v == 0 then 14 else if v == 2 then 50 else if v == 4 then 19 else if v == 5 then 1 else if v == 10 then 21 else 60
    else 60
  }

  /** The table has edge `s` of triangle `k`, and its reverse. */
  predicate EdgeListed(k: nat, s: nat)
    requires s < 3
  {
    var e := EdgeOf(BaseTriangle(k), s);
    var v := Where(e.1, e.0);
    Where(e.0, e.1) == 3 * k + s && v < 60 && EdgeOf(BaseTriangle(v / 3), v % 3) == Flip(e)
  }

  /** ... and its first two edges border different triangles. */
  predicate Listed(k: nat) {
    var t := BaseTriangle(k);
    && Proper(t, 12) && EdgeListed(k, 0) && EdgeListed(k, 1) && EdgeListed(k, 2)
    && Where(t.b, t.a) / 3 != Where(t.c, t.b) / 3
  }

  lemma Listed0() ensures Listed(0) {}
  lemma Listed1() ensures Listed(1) {}
  lemma Listed2() ensures Listed(2) {}
  lemma Listed3() ensures Listed(3) {}
  lemma Listed4() ensures Listed(4) {}
  lemma Listed5() ensures Listed(5) {}
  lemma Listed6() ensures Listed(6) {}
  lemma Listed7() ensures Listed(7) {}
  lemma Listed8() ensures Listed(8) {}
  lemma Listed9() ensures Listed(9) {}
  lemma Listed10() ensures Listed(10) {}
  lemma Listed11() ensures Listed(11) {}
  lemma Listed12() ensures Listed(12) {}
  lemma Listed13() ensures Listed(13) {}
  lemma Listed14() ensures Listed(14) {}
  lemma Listed15() ensures Listed(15) {}
  lemma Listed16() ensures Listed(16) {}
  lemma Listed17() ensures Listed(17) {}
  lemma Listed18() ensures Listed(18) {}
  lemma Listed19() ensures Listed(19) {}

  lemma BaseListed(k: nat)
    requires k < 20
    ensures Listed(k)
  {
    if k == 0 { Listed0(); }
    else if k == 1 { Listed1(); }
    else if k == 2 { Listed2(); }
    else if k == 3 { Listed3(); }
    else if k == 4 { Listed4(); }
    else if k == 5 { Listed5(); }
    else if k == 6 { Listed6(); }
    else if k == 7 { Listed7(); }
    else if k == 8 { Listed8(); }
    else if k == 9 { Listed9(); }
    else if k == 10 { Listed10(); }
    else if k == 11 { Listed11(); }
    else if k == 12 { Listed12(); }
    else if k == 13 { Listed13(); }
    else if k == 14 { Listed14(); }
    else if k == 15 { Listed15(); }
    else if k == 16 { Listed16(); }
    else if k == 17 { Listed17(); }
    else if k == 18 { Listed18(); }
    else if k == 19 { Listed19(); }
  }

  lemma BaseEdge(k: nat, s: nat)
    requires k < 20 && s < 3
    ensures
      var e := EdgeOf(BASE[k], s);
      Proper(BASE[k], 12) && Where(e.0, e.1) == 3 * k + s && HasEdge(BASE, Flip(e))
  {
    BaseListed(k);
    assert EdgeListed(k, s);
    var e := EdgeOf(BASE[k], s);
    var v := Where(e.1, e.0);
    assert EdgeOf(BASE[v / 3], v % 3) == Flip(e);
  }

  /** The icosahedron is closed and has no twins. */
  lemma BaseIsClosed()
    ensures Closed(BASE, 12) && NoTwins(BASE)
  {
    forall i, s | 0 <= i < 20 && 0 <= s < 3
      ensures Proper(BASE[i], 12) && HasEdge(BASE, Flip(EdgeOf(BASE[i], s)))
    {
      BaseEdge(i, s);
    }
    forall i, s, j, r | 0 <= i < 20 && 0 <= s < 3 && 0 <= j < 20 && 0 <= r < 3 && EdgeOf(BASE[i], s) == EdgeOf(BASE[j], r)
      ensures i == j && s == r
    {
      BaseEdge(i, s);
      BaseEdge(j, r);
    }
    assert Closed(BASE, 12);
    forall i, j | 0 <= i < j < 20 ensures Corners(BASE[i]) != Corners(BASE[j]) {
      BaseTwins(i, j);
      BaseListed(i);
    }
  }

  /** The reverses of a triangle's edges lie in its twin. */
  lemma TwinFlips(t: Triangle, u: Triangle, side: (nat, nat) -> nat, j: nat)
    requires u == Triangle(t.a, t.c, t.b) || u == Triangle(t.c, t.b, t.a) || u == Triangle(t.b, t.a, t.c)
    requires side(u.a, u.b) / 3 == j && side(u.b, u.c) / 3 == j && side(u.c, u.a) / 3 == j
    ensures side(t.b, t.a) / 3 == side(t.c, t.b) / 3
  {
  }

  lemma BaseTwins(i: nat, j: nat)
    requires Closed(BASE, 12) && i < j < 20
    ensures
      var t := BASE[i];
      Corners(t) == Corners(BASE[j]) ==> Where(t.b, t.a) / 3 == Where(t.c, t.b) / 3
  {
    if Corners(BASE[i]) == Corners(BASE[j]) {
      TwinsOppose(BASE, 12, i, j);
      BaseSides(j);
      TwinFlips(BASE[i], BASE[j], (u: nat, v: nat) => Where(u, v), j);
    }
  }

  lemma BaseSides(j: nat)
    requires j < 20
    ensures var u := BASE[j]; Where(u.a, u.b) / 3 == j && Where(u.b, u.c) / 3 == j && Where(u.c, u.a) / 3 == j
  {
    BaseEdge(j, 0);
    BaseEdge(j, 1);
    BaseEdge(j, 2);
    assert EdgeOf(BASE[j], 0) == (BASE[j].a, BASE[j].b) && EdgeOf(BASE[j], 1) == (BASE[j].b, BASE[j].c)
        && EdgeOf(BASE[j], 2) == (BASE[j].c, BASE[j].a);
  }

  function Power4(s: nat): nat {
    if s == 0 then 1 else 4 * Power4(s - 1)
  }

  /** The whole generator: a closed surface of 20 * 4^s triangles on 10 * 4^s + 2 vertices. */
  method Generate<P(!new)>(blend: (P, P) -> P, corners: seq<P>, subdivisions: nat) returns (m: Mesh<P>)
    requires Symmetric(blend) && |corners| == 12
    ensures Closed(m.tris, |m.vs|) && NoTwins(m.tris)
    ensures |m.tris| == 20 * Power4(subdivisions) && |m.vs| == 10 * Power4(subdivisions) + 2
    ensures corners <= m.vs
  {
    m := new Mesh(blend, corners, BASE);
    BaseIsClosed();
    for s := 0 to subdivisions
      invariant fresh(m) && m.blend == blend && corners <= m.vs
      invariant Closed(m.tris, |m.vs|) && NoTwins(m.tris)
      invariant |m.tris| == 20 * Power4(s) && |m.vs| == 10 * Power4(s) + 2
    {
      EdgeCount(m.tris, |m.vs|);
      m.Subdivide();
      assert |m.mid| == |m.mid.Keys|;
    }
  }
}
