/** typeContainsDouble, whose recursion relies on there being no recursive structs. */
module DoubleFields {
  import opened ShaderAst
  import opened StructCycles

  datatype FieldType = Scalar(isDouble: bool) | StructTy(name: Name) | ArrayTy(elem: FieldType)

  /** The fields of every complete struct. */
  type Decls = map<Name, seq<FieldType>>

  /** buildDependencies: the struct-typed fields; array fields are not edges. */
  function DirectDeps(ds: Decls): Deps {
    map a | a in ds && Direct(ds, ds[a]) != [] :: Direct(ds, ds[a])
  }

  function Direct(ds: Decls, fields: seq<FieldType>): seq<Name> {
    if fields == [] then []
    else
      (if fields[0].StructTy? && fields[0].name in ds then [fields[0].name] else []) + Direct(ds, fields[1..])
  }

  /** There is an edge exactly to every struct that a field has for its type. */
  lemma DirectEdges(ds: Decls, a: Name, b: Name)
    ensures Edge(DirectDeps(ds), a, b) <==> a in ds && b in ds && StructTy(b) in ds[a]
  {
    if a in ds { DirectNames(ds, ds[a], b); }
  }

  lemma {:induction false} DirectNames(ds: Decls, fields: seq<FieldType>, b: Name)
    ensures b in Direct(ds, fields) <==> b in ds && StructTy(b) in fields
  {
    if fields != [] { DirectNames(ds, fields[1..], b); }
  }

  function Leaf(t: FieldType): FieldType {
    if t.ArrayTy? then Leaf(t.elem) else t
  }

  /** All edges the recursion follows: struct-typed fields and arrays of structs. */
  function AllDeps(ds: Decls): Deps {
    map a | a in ds :: Structs(ds[a])
  }

  function Structs(fields: seq<FieldType>): (r: seq<Name>)
    ensures forall s :: s in r <==> exists i :: 0 <= i < |fields| && Leaf(fields[i]) == StructTy(s)
  {
    if fields == [] then []
    else
      var l := Leaf(fields[0]);
      assert forall i | 0 < i < |fields| :: fields[i] == fields[1..][i - 1];
      assert forall i | 0 <= i < |fields| - 1 :: fields[1..][i] == fields[i + 1];
      (if l.StructTy? then [l.name] else []) + Structs(fields[1..])
  }

  /** typeContainsDouble, following at most `n` structs into one another; None when that is not enough. */
  function Search(ds: Decls, n: nat, t: FieldType): Option<bool>
    decreases n, t, 0
  {
    match t
    case Scalar(d) => Some(d)
    case ArrayTy(e) => Search(ds, n, e)
    case StructTy(s) =>
      if s !in ds then Some(false) else if n == 0 then None else SearchAny(ds, n - 1, ds[s])
  }

  /** The loop over the fields, which stops at the first double. */
  function SearchAny(ds: Decls, n: nat, fields: seq<FieldType>): Option<bool>
    decreases n, fields, 0
  {
    if fields == [] then Some(false)
    else
      match Search(ds, n, fields[0])
      case None => None
      case Some(true) => Some(true)
      case Some(false) => SearchAny(ds, n, fields[1..])
  }

  /** Struct `s` has a field that is a double, or an array of doubles. */
  predicate OwnDouble(ds: Decls, s: Name) {
    s in ds && exists i :: 0 <= i < |ds[s]| && Leaf(ds[s][i]) == Scalar(true)
  }

  /** A double can be reached through fields and array elements. */
  ghost predicate HasDouble(ds: Decls, t: FieldType) {
    match Leaf(t)
    case Scalar(d) => d
    case StructTy(s) => exists p :: Path(AllDeps(ds), p) && p[0] == s && OwnDouble(ds, p[|p| - 1])
    case ArrayTy(_) => false
  }

  lemma {:induction false} LeafDecides(ds: Decls, n: nat, t: FieldType)
    ensures Search(ds, n, t) == Search(ds, n, Leaf(t))
    ensures HasDouble(ds, t) <==> HasDouble(ds, Leaf(t))
    decreases t
  {
    if t.ArrayTy? { LeafDecides(ds, n, t.elem); }
  }

  /** A struct has a double exactly when one of its fields has. */
  lemma StructHasDouble(ds: Decls, s: Name)
    requires s in ds
    ensures HasDouble(ds, StructTy(s)) <==> exists i :: 0 <= i < |ds[s]| && HasDouble(ds, ds[s][i])
  {
    var d := AllDeps(ds);
    if HasDouble(ds, StructTy(s)) {
      var p :| Path(d, p) && p[0] == s && OwnDouble(ds, p[|p| - 1]);
      if |p| == 1 {
        var i :| 0 <= i < |ds[s]| && Leaf(ds[s][i]) == Scalar(true);
        assert HasDouble(ds, ds[s][i]);
      } else {
        assert Edge(d, p[0], p[1]);
        var i :| 0 <= i < |ds[s]| && Leaf(ds[s][i]) == StructTy(p[1]);
        PathFrom(d, p, 1);
        assert HasDouble(ds, ds[s][i]);
      }
    }
    if i :| 0 <= i < |ds[s]| && HasDouble(ds, ds[s][i]) {
      FieldHasDouble(ds, s, i);
    }
  }

  lemma FieldHasDouble(ds: Decls, s: Name, i: nat)
    requires s in ds && i < |ds[s]| && HasDouble(ds, ds[s][i])
    ensures HasDouble(ds, StructTy(s))
  {
    var d := AllDeps(ds);
    match Leaf(ds[s][i])
    case Scalar(_) => assert Path(d, [s]);
    case StructTy(u) =>
      var q :| Path(d, q) && q[0] == u && OwnDouble(ds, q[|q| - 1]);
      var p := [s] + q;
      assert Edge(d, s, u);
      assert Path(d, p) by {
        forall k | 0 <= k < |p| - 1 ensures Edge(d, p[k], p[k + 1]) {
          if k > 0 { assert Edge(d, q[k - 1], q[k]); }
        }
      }
      assert p[|p| - 1] == q[|q| - 1];
    case _ =>
  }

  /** Whenever the recursion ends, its answer is right. */
  lemma {:induction false} AnswerIsRight(ds: Decls, n: nat, t: FieldType)
    ensures Search(ds, n, t).Some? ==> (Search(ds, n, t).value <==> HasDouble(ds, t))
    decreases n, t, 0
  {
    match t
    case Scalar(_) =>
    case ArrayTy(e) => AnswerIsRight(ds, n, e);
    case StructTy(s) =>
      if s !in ds {
        assert forall p | Path(AllDeps(ds), p) && p[0] == s :: |p| > 1 ==> Edge(AllDeps(ds), p[0], p[1]);
      } else if n > 0 {
        StructHasDouble(ds, s);
        AnyIsRight(ds, n - 1, ds[s]);
      }
  }

  lemma {:induction false} AnyIsRight(ds: Decls, n: nat, fields: seq<FieldType>)
    ensures
      var r := SearchAny(ds, n, fields);
      r.Some? ==> (r.value <==> exists i :: 0 <= i < |fields| && HasDouble(ds, fields[i]))
    decreases n, fields, 0
  {
    if fields != [] {
      AnswerIsRight(ds, n, fields[0]);
      AnyIsRight(ds, n, fields[1..]);
      assert forall i | 0 < i < |fields| :: fields[i] == fields[1..][i - 1];
      assert forall i | 0 <= i < |fields| - 1 :: fields[1..][i] == fields[i + 1];
    }
  }

  /** A list without repetition is no longer than a set that holds it. */
  lemma {:induction false} FitsIn(p: seq<Name>, u: set<Name>)
    requires !Repeats(p) && forall x | x in p :: x in u
    ensures |p| <= |u|
    decreases p
  {
    if p != [] {
      var q, last := p[..|p| - 1], p[|p| - 1];
      forall i, j | 0 <= i < j < |q| ensures q[i] != q[j] { assert p[i] != p[j]; }
      forall x | x in q ensures x in u - {last} {
        var i :| 0 <= i < |q| && q[i] == x;
        assert p[i] != p[|p| - 1];
      }
      FitsIn(q, u - {last});
    }
  }

  // ---- when the search ends ----

  /** The structs that the loop over the fields enters: it stops behind the first field with a double. */
  ghost function Entered(ds: Decls, fields: seq<FieldType>): seq<Name> {
    if fields == [] then []
    else
      (if Leaf(fields[0]).StructTy? then [Leaf(fields[0]).name] else []) +
      (if HasDouble(ds, fields[0]) then [] else Entered(ds, fields[1..]))
  }

  /** The edges the search follows. */
  ghost function SearchDeps(ds: Decls): Deps {
    map a | a in ds :: Entered(ds, ds[a])
  }

  lemma EnteredFirst(ds: Decls, fields: seq<FieldType>)
    requires fields != []
    ensures Leaf(fields[0]).StructTy? ==> Leaf(fields[0]).name in Entered(ds, fields)
    ensures !HasDouble(ds, fields[0]) ==> forall b | b in Entered(ds, fields[1..]) :: b in Entered(ds, fields)
  {
  }

  /** From `t` the search comes by a struct twice. */
  ghost predicate Circles(ds: Decls, t: FieldType) {
    Leaf(t).StructTy? && Cyclic(SearchDeps(ds), Leaf(t).name)
  }

  /** What reaches a cycle has a successor that does. */
  lemma CyclicSuccessor(d: Deps, s: Name) returns (b: Name)
    requires Cyclic(d, s)
    ensures Edge(d, s, b) && Cyclic(d, b)
  {
    var p :| Path(d, p) && p[0] == s && Repeats(p);
    var i, j :| 0 <= i < j < |p| && p[i] == p[j];
    b := p[1];
    assert Edge(d, p[0], p[1]);
    PathFrom(d, p, 1);
    var q := p[1..];
    if i > 0 {
      assert q[i - 1] == q[j - 1];
    } else {
      PathFrom(d, q, j - 1);
      var round := q[..j] + [b];
      PathExtends(d, q[..j], b);
      assert round[0] == round[j];
    }
  }

  lemma {:induction false} CirclesForever(ds: Decls, n: nat, s: Name)
    requires Cyclic(SearchDeps(ds), s)
    ensures Search(ds, n, StructTy(s)) == None
  {
    var b := CyclicSuccessor(SearchDeps(ds), s);
    if n == 0 {
      NoSteps(ds, s);
    } else {
      CirclesForever(ds, n - 1, b);
      StuckInside(ds, n - 1, s, b);
    }
  }

  lemma NoSteps(ds: Decls, s: Name)
    requires s in ds
    ensures Search(ds, 0, StructTy(s)) == None
  {
  }

  lemma StuckInside(ds: Decls, n: nat, s: Name, b: Name)
    requires Edge(SearchDeps(ds), s, b) && Search(ds, n, StructTy(b)) == None
    ensures Search(ds, n + 1, StructTy(s)) == None
  {
    StuckAt(ds, n, ds[s], b);
  }

  /** The loop over the fields is stuck with a struct it enters. */
  lemma {:induction false} StuckAt(ds: Decls, n: nat, fields: seq<FieldType>, b: Name)
    requires b in Entered(ds, fields) && Search(ds, n, StructTy(b)) == None
    ensures SearchAny(ds, n, fields) == None
    decreases fields
  {
    LeafDecides(ds, n, fields[0]);
    if Leaf(fields[0]) != StructTy(b) {
      AnswerIsRight(ds, n, fields[0]);
      StuckAt(ds, n, fields[1..], b);
    }
  }

  /** `p` is a chain of declared structs that the search enters one from the other, and it comes by no struct twice. */
  ghost predicate Chain(ds: Decls, p: seq<Name>) {
    Path(SearchDeps(ds), p) && !Cyclic(SearchDeps(ds), p[0]) && forall x | x in p :: x in ds
  }

  lemma ChainExtends(ds: Decls, p: seq<Name>, s: Name)
    requires Chain(ds, p) && s in ds && Edge(SearchDeps(ds), p[|p| - 1], s)
    ensures Chain(ds, p + [s]) && |p + [s]| <= |ds.Keys|
  {
    PathExtends(SearchDeps(ds), p, s);
    FitsIn(p + [s], ds.Keys);
  }

  lemma ChainStarts(ds: Decls, s: Name)
    requires s in ds && !Cyclic(SearchDeps(ds), s)
    ensures Chain(ds, [s])
  {
  }

  /** What the search enters from `fields` are edges from `s`. */
  ghost predicate Follows(ds: Decls, s: Name, fields: seq<FieldType>) {
    forall b | b in Entered(ds, fields) :: Edge(SearchDeps(ds), s, b)
  }

  lemma EntersEdges(ds: Decls, s: Name)
    requires s in ds
    ensures Follows(ds, s, ds[s])
  {
    assert SearchDeps(ds)[s] == Entered(ds, ds[s]);
  }

  /** `p` is the chain of structs that leads to `t`; following as many as are declared is enough. */
  lemma {:induction false} EndsInTime(ds: Decls, n: nat, t: FieldType, p: seq<Name>)
    requires Chain(ds, p) && n + |p| >= |ds.Keys|
    requires Leaf(t).StructTy? ==> Edge(SearchDeps(ds), p[|p| - 1], Leaf(t).name)
    ensures Search(ds, n, t).Some?
    decreases n, t, 1
  {
    match t
    case Scalar(_) =>
    case ArrayTy(e) => EndsInTime(ds, n, e, p);
    case StructTy(s) =>
      if s in ds {
        ChainExtends(ds, p, s);
        EntersInTime(ds, n, s, p + [s]);
      }
  }

  lemma {:induction false} EntersInTime(ds: Decls, n: nat, s: Name, p: seq<Name>)
    requires Chain(ds, p) && n + |p| > |ds.Keys| >= |p| && s in ds && p[|p| - 1] == s
    ensures Search(ds, n, StructTy(s)).Some?
    decreases n, StructTy(s), 0
  {
    EntersEdges(ds, s);
    AnyEndsInTime(ds, n - 1, ds[s], s, p);
  }

  lemma {:induction false} AnyEndsInTime(ds: Decls, n: nat, fields: seq<FieldType>, s: Name, p: seq<Name>)
    requires Chain(ds, p) && n + |p| >= |ds.Keys| && p[|p| - 1] == s
    requires Follows(ds, s, fields)
    ensures SearchAny(ds, n, fields).Some?
    decreases n, fields, 0
  {
    if fields != [] {
      EnteredFirst(ds, fields);
      EndsInTime(ds, n, fields[0], p);
      AnswerIsRight(ds, n, fields[0]);
      if !HasDouble(ds, fields[0]) { AnyEndsInTime(ds, n, fields[1..], s, p); }
    }
  }

  ghost predicate Ends(ds: Decls, t: FieldType) {
    exists n: nat :: Search(ds, n, t).Some?
  }

  /** The search ends exactly when it does not come by a struct twice; then it is exact, within as many structs as
      are declared. */
  lemma SearchEndsIff(ds: Decls, t: FieldType)
    ensures Ends(ds, t) <==> !Circles(ds, t)
    ensures !Circles(ds, t) ==> Search(ds, |ds.Keys|, t) == Some(HasDouble(ds, t))
  {
    if Circles(ds, t) {
      forall n: nat ensures Search(ds, n, t).None? {
        LeafDecides(ds, n, t);
        CirclesForever(ds, n, Leaf(t).name);
      }
    } else {
      ExactUnlessCircling(ds, t);
    }
  }

  lemma ExactUnlessCircling(ds: Decls, t: FieldType)
    requires !Circles(ds, t)
    ensures Search(ds, |ds.Keys|, t) == Some(HasDouble(ds, t))
  {
    LeafDecides(ds, |ds.Keys|, t);
    if Leaf(t).StructTy? && Leaf(t).name in ds { StructEnds(ds, Leaf(t).name, |ds.Keys| - 1); }
    AnswerIsRight(ds, |ds.Keys|, t);
  }

  lemma StructEnds(ds: Decls, s: Name, n: nat)
    requires s in ds && !Cyclic(SearchDeps(ds), s) && n + 1 == |ds.Keys|
    ensures Search(ds, n + 1, StructTy(s)).Some?
  {
    ChainStarts(ds, s);
    EntersEdges(ds, s);
    AnyEndsInTime(ds, n, ds[s], s, [s]);
  }

  /** The searches from all types end exactly when no cycle runs through the fields they look at. */
  lemma AllSearchesEndIff(ds: Decls)
    ensures (forall t :: Ends(ds, t)) <==> Acyclic(SearchDeps(ds))
  {
    forall t ensures Ends(ds, t) <==> !Circles(ds, t) { SearchEndsIff(ds, t); }
    if s :| Cyclic(SearchDeps(ds), s) {
      assert Circles(ds, StructTy(s)) && !Ends(ds, StructTy(s));
    }
  }

  lemma {:induction false} EnteredIsStruct(ds: Decls, fields: seq<FieldType>, b: Name)
    requires b in Entered(ds, fields)
    ensures b in Structs(fields)
  {
    if Leaf(fields[0]) != StructTy(b) { EnteredIsStruct(ds, fields[1..], b); }
  }

  /** No cycle over all fields, arrays included, is enough. */
  lemma ExactWhenAcyclic(ds: Decls, t: FieldType)
    requires Acyclic(AllDeps(ds))
    ensures Search(ds, |ds.Keys|, t) == Some(HasDouble(ds, t))
  {
    if Circles(ds, t) {
      var p :| Path(SearchDeps(ds), p) && p[0] == Leaf(t).name && Repeats(p);
      forall i | 0 <= i < |p| - 1 ensures Edge(AllDeps(ds), p[i], p[i + 1]) {
        assert Edge(SearchDeps(ds), p[i], p[i + 1]);
        EnteredIsStruct(ds, ds[p[i]], p[i + 1]);
      }
      assert Cyclic(AllDeps(ds), p[0]);
    }
    SearchEndsIff(ds, t);
  }

  /** A struct that holds an array of itself. */
  const NESTED: Decls := map["A" := [ArrayTy(StructTy("A"))]]

  /** The check for recursive definitions accepts it, and then the recursion has no end. */
  lemma ArrayCycleSlipsThrough(n: nat)
    ensures Acyclic(DirectDeps(NESTED)) && Search(NESTED, n, StructTy("A")) == None
  {
    var fields := NESTED["A"];
    assert fields[1..] == [] && Direct(NESTED, fields[1..]) == [];
    assert Direct(NESTED, fields) == [];
    assert forall s :: s !in DirectDeps(NESTED);
    forall s ensures !Cyclic(DirectDeps(NESTED), s) { NoDepsNoCycle(DirectDeps(NESTED), s); }
    NestedNeverEnds(n);
  }

  lemma {:induction false} NestedNeverEnds(n: nat)
    ensures Search(NESTED, n, StructTy("A")) == None
  {
    if n > 0 {
      NestedNeverEnds(n - 1);
      assert NESTED["A"][0] == ArrayTy(StructTy("A"));
      assert Search(NESTED, n - 1, ArrayTy(StructTy("A"))) == None;
    }
  }

  /** A double before the array of itself. */
  const SHIELDED: Decls := map["A" := [Scalar(true), ArrayTy(StructTy("A"))]]

  /** A cycle over all fields that the search never enters: it stops at the double. */
  lemma DoubleShieldsCycle()
    ensures Cyclic(AllDeps(SHIELDED), "A") && !Circles(SHIELDED, StructTy("A"))
    ensures Search(SHIELDED, 1, StructTy("A")) == Some(true)
  {
    var d := AllDeps(SHIELDED);
    assert Leaf(SHIELDED["A"][1]) == StructTy("A");
    assert Edge(d, "A", "A");
    assert Path(d, ["A", "A"]) && Repeats(["A", "A"]) by { assert ["A", "A"][0] == ["A", "A"][1]; }
    assert SearchAny(SHIELDED, 0, SHIELDED["A"]) == Search(SHIELDED, 0, Scalar(true)) == Some(true);
    assert Search(SHIELDED, 1, StructTy("A")) == Some(true);
    SearchEndsIff(SHIELDED, StructTy("A"));
  }
}
