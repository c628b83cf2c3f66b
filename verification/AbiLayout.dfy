/** How values cross the boundary between shaders and host: flat regions of 32-bit and of 64-bit slots. */
module AbiLayout {

  /** Bit patterns: floats, ints and uints fill a word, doubles a double word. */
  type Word = bv32
  type Wide = bv64

  /** Types as they cross; a matrix is a structure that holds an array of column vectors. */
  datatype Ty =
    | WordTy
    | WideTy
    | VecTy(n: nat)
    | ArrayTy(n: nat, elem: Ty)
    | StructTy(members: seq<Ty>)

  datatype Value =
    | W(w: Word)
    | D(d: Wide)
    | V(ws: seq<Word>)
    | Agg(parts: seq<Value>)

  predicate HasType(v: Value, ty: Ty)
    decreases ty
  {
    match ty
    case WordTy => v.W?
    case WideTy => v.D?
    case VecTy(n) => v.V? && |v.ws| == n
    case ArrayTy(n, e) => v.Agg? && |v.parts| == n && forall i | 0 <= i < n :: HasType(v.parts[i], e)
    case StructTy(ms) => v.Agg? && |v.parts| == |ms| && forall i | 0 <= i < |ms| :: HasType(v.parts[i], ms[i])
  }

  /** `n` times `k`, as a sum. */
  function Repeated(n: nat, k: nat): nat {
    if n == 0 then 0 else Repeated(n - 1, k) + k
  }

  lemma {:induction false} RepeatedIsProduct(n: nat, k: nat)
    ensures Repeated(n, k) == n * k
  {
    if n > 0 { RepeatedIsProduct(n - 1, k); }
  }

  lemma {:induction false} RepeatedGrows(i: nat, n: nat, k: nat)
    requires i <= n
    ensures Repeated(i, k) <= Repeated(n, k)
    decreases n
  {
    if i < n { RepeatedGrows(i, n - 1, k); }
  }

  /** typeFloatCount: the 32-bit slots of a type. */
  function Floats(ty: Ty): nat
    decreases ty, 1
  {
    match ty
    case WordTy => 1
    case WideTy => 0
    case VecTy(n) => n
    case ArrayTy(n, e) => Repeated(n, Floats(e))
    case StructTy(ms) => FloatsAll(ms)
  }

  function FloatsAll(tys: seq<Ty>): nat
    decreases tys, 0
  {
    if tys == [] then 0 else Floats(tys[0]) + FloatsAll(tys[1..])
  }

  /** typeDoubleCount: the 64-bit slots of a type. */
  function Doubles(ty: Ty): nat
    decreases ty, 1
  {
    match ty
    case WideTy => 1
    case ArrayTy(n, e) => Repeated(n, Doubles(e))
    case StructTy(ms) => DoublesAll(ms)
    case _ => 0
  }

  function DoublesAll(tys: seq<Ty>): nat
    decreases tys, 0
  {
    if tys == [] then 0 else Doubles(tys[0]) + DoublesAll(tys[1..])
  }

  /** The words of a value, in order; and its double words. */
  function Words(v: Value): seq<Word>
    decreases v, 1
  {
    match v
    case W(w) => [w]
    case D(_) => []
    case V(ws) => ws
    case Agg(ps) => WordsAll(ps)
  }

  function WordsAll(vs: seq<Value>): seq<Word>
    decreases vs, 0
  {
    if vs == [] then [] else Words(vs[0]) + WordsAll(vs[1..])
  }

  function Wides(v: Value): seq<Wide>
    decreases v, 1
  {
    match v
    case D(d) => [d]
    case Agg(ps) => WidesAll(ps)
    case _ => []
  }

  function WidesAll(vs: seq<Value>): seq<Wide>
    decreases vs, 0
  {
    if vs == [] then [] else Wides(vs[0]) + WidesAll(vs[1..])
  }

  lemma {:induction false} WordsSplit(vs: seq<Value>, v: Value)
    ensures WordsAll(vs + [v]) == WordsAll(vs) + Words(v) && WidesAll(vs + [v]) == WidesAll(vs) + Wides(v)
    decreases vs
  {
    if vs == [] {
      assert vs + [v] == [v];
    } else {
      var first, rest := vs[0], vs[1..];
      assert vs + [v] == [first] + (rest + [v]) && vs == [first] + rest;
      WordsSplit(rest, v);
      FirstPart(first, rest);
      FirstPart(first, rest + [v]);
      Regroup(Words(first), WordsAll(rest), Words(v));
      Regroup(Wides(first), WidesAll(rest), Wides(v));
    }
  }

  lemma FirstPart(first: Value, rest: seq<Value>)
    ensures WordsAll([first] + rest) == Words(first) + WordsAll(rest) && WidesAll([first] + rest) == Wides(first) + WidesAll(rest)
  {
    assert ([first] + rest)[1..] == rest;
  }

  lemma Regroup<T>(a: seq<T>, b: seq<T>, c: seq<T>)
    ensures a + (b + c) == (a + b) + c
  {
  }

  // ---- the counts are the numbers of slots used ----

  lemma {:induction false} CountsAreSizes(v: Value, ty: Ty)
    requires HasType(v, ty)
    ensures |Words(v)| == Floats(ty) && |Wides(v)| == Doubles(ty)
    decreases ty, 1
  {
    match ty
    case ArrayTy(n, e) => ArraySizes(v.parts, e);
    case StructTy(ms) => StructSizes(v.parts, ms);
    case _ =>
  }

  lemma {:induction false} ArraySizes(vs: seq<Value>, e: Ty)
    requires forall i | 0 <= i < |vs| :: HasType(vs[i], e)
    ensures |WordsAll(vs)| == Repeated(|vs|, Floats(e)) && |WidesAll(vs)| == Repeated(|vs|, Doubles(e))
    decreases e, 2, |vs|
  {
    if vs != [] {
      CountsAreSizes(vs[0], e);
      ArraySizes(vs[1..], e);
    }
  }

  lemma {:induction false} StructSizes(vs: seq<Value>, tys: seq<Ty>)
    requires |vs| == |tys| && forall i | 0 <= i < |tys| :: HasType(vs[i], tys[i])
    ensures |WordsAll(vs)| == FloatsAll(tys) && |WidesAll(vs)| == DoublesAll(tys)
    decreases tys, 0
  {
    if tys != [] {
      CountsAreSizes(vs[0], tys[0]);
      StructSizes(vs[1..], tys[1..]);
    }
  }

  // ---- slots determine values ----

  /** Two values of a type with the same words and double words are the same. */
  lemma {:induction false} SlotsDetermine(v: Value, u: Value, ty: Ty)
    requires HasType(v, ty) && HasType(u, ty) && Words(v) == Words(u) && Wides(v) == Wides(u)
    ensures v == u
    decreases ty, 1
  {
    match ty
    case ArrayTy(_, e) => ArrayDetermined(v.parts, u.parts, e);
    case StructTy(ms) => StructDetermined(v.parts, u.parts, ms);
    case _ =>
  }

  lemma {:induction false} ArrayDetermined(vs: seq<Value>, us: seq<Value>, e: Ty)
    requires |vs| == |us| && forall i | 0 <= i < |vs| :: HasType(vs[i], e) && HasType(us[i], e)
    requires WordsAll(vs) == WordsAll(us) && WidesAll(vs) == WidesAll(us)
    ensures vs == us
    decreases e, 2, |vs|
  {
    if vs != [] {
      CountsAreSizes(vs[0], e);
      CountsAreSizes(us[0], e);
      FrontsEqual(Words(vs[0]), WordsAll(vs[1..]), Words(us[0]), WordsAll(us[1..]));
      FrontsEqual(Wides(vs[0]), WidesAll(vs[1..]), Wides(us[0]), WidesAll(us[1..]));
      SlotsDetermine(vs[0], us[0], e);
      ArrayDetermined(vs[1..], us[1..], e);
    }
  }

  lemma {:induction false} StructDetermined(vs: seq<Value>, us: seq<Value>, tys: seq<Ty>)
    requires |vs| == |us| == |tys| && forall i | 0 <= i < |tys| :: HasType(vs[i], tys[i]) && HasType(us[i], tys[i])
    requires WordsAll(vs) == WordsAll(us) && WidesAll(vs) == WidesAll(us)
    ensures vs == us
    decreases tys, 0
  {
    if tys != [] {
      CountsAreSizes(vs[0], tys[0]);
      CountsAreSizes(us[0], tys[0]);
      FrontsEqual(Words(vs[0]), WordsAll(vs[1..]), Words(us[0]), WordsAll(us[1..]));
      FrontsEqual(Wides(vs[0]), WidesAll(vs[1..]), Wides(us[0]), WidesAll(us[1..]));
      SlotsDetermine(vs[0], us[0], tys[0]);
      StructDetermined(vs[1..], us[1..], tys[1..]);
    }
  }

  lemma FrontsEqual<T>(a: seq<T>, b: seq<T>, c: seq<T>, d: seq<T>)
    requires a + b == c + d && |a| == |c|
    ensures a == c && b == d
  {
    assert a == (a + b)[..|a|] && c == (c + d)[..|c|];
    assert b == (a + b)[|a|..] && d == (c + d)[|c|..];
  }

  // ---- one region: doubles are narrowed into words ----

  datatype Casts = Casts(narrow: Wide -> Word, widen: Word -> Wide)

  /** The type with a word in place of every double. */
  function Erased(ty: Ty): Ty
    decreases ty, 1
  {
    match ty
    case WideTy => WordTy
    case ArrayTy(n, e) => ArrayTy(n, Erased(e))
    case StructTy(ms) => StructTy(ErasedAll(ms))
    case _ => ty
  }

  function ErasedAll(tys: seq<Ty>): (r: seq<Ty>)
    ensures |r| == |tys| && forall i | 0 <= i < |tys| :: r[i] == Erased(tys[i])
    decreases tys, 0
  {
    if tys == [] then [] else [Erased(tys[0])] + ErasedAll(tys[1..])
  }

  function Narrowed(c: Casts, v: Value): Value
    decreases v, 1
  {
    match v
    case D(d) => W(c.narrow(d))
    case Agg(ps) => Agg(NarrowedAll(c, ps))
    case _ => v
  }

  function NarrowedAll(c: Casts, vs: seq<Value>): (r: seq<Value>)
    ensures |r| == |vs| && forall i | 0 <= i < |vs| :: r[i] == Narrowed(c, vs[i])
    decreases vs, 0
  {
    if vs == [] then [] else [Narrowed(c, vs[0])] + NarrowedAll(c, vs[1..])
  }

  /** `u`, of the erased type, with its words at the places of doubles widened again. */
  function Widened(c: Casts, ty: Ty, u: Value): Value
    requires HasType(u, Erased(ty))
    decreases ty
  {
    match ty
    case WideTy => D(c.widen(u.w))
    case ArrayTy(n, e) => Agg(seq(n, i requires 0 <= i < n => Widened(c, e, u.parts[i])))
    case StructTy(ms) => Agg(seq(|ms|, i requires 0 <= i < |ms| => Widened(c, ms[i], u.parts[i])))
    case _ => u
  }

  lemma {:induction false} NarrowedTyped(c: Casts, v: Value, ty: Ty)
    requires HasType(v, ty)
    ensures HasType(Narrowed(c, v), Erased(ty))
    decreases ty
  {
    match ty
    case ArrayTy(n, e) => forall i | 0 <= i < n ensures HasType(Narrowed(c, v.parts[i]), Erased(e)) { NarrowedTyped(c, v.parts[i], e); }
    case StructTy(ms) =>
      forall i | 0 <= i < |ms| ensures HasType(Narrowed(c, v.parts[i]), Erased(ms[i])) { NarrowedTyped(c, v.parts[i], ms[i]); }
    case _ =>
  }

  /** In one region a type takes a slot for each of its doubles, too. */
  lemma {:induction false} OneRegionSlots(ty: Ty)
    ensures Floats(Erased(ty)) == Floats(ty) + Doubles(ty)
    decreases ty, 1
  {
    match ty
    case ArrayTy(n, e) => 
      OneRegionSlots(e);
      Distribute(n, Floats(e), Doubles(e));
    case StructTy(ms) => OneRegionSlotsAll(ms);
    case _ =>
  }

  lemma {:induction false} Distribute(n: nat, a: nat, b: nat)
    ensures Repeated(n, a + b) == Repeated(n, a) + Repeated(n, b)
  {
    if n > 0 { Distribute(n - 1, a, b); }
  }

  lemma {:induction false} OneRegionSlotsAll(tys: seq<Ty>)
    ensures FloatsAll(ErasedAll(tys)) == FloatsAll(tys) + DoublesAll(tys)
    decreases tys, 0
  {
    if tys != [] {
      OneRegionSlots(tys[0]);
      OneRegionSlotsAll(tys[1..]);
      assert ErasedAll(tys)[1..] == ErasedAll(tys[1..]);
    }
  }

  /** No double of the value is rounded by a word. */
  predicate Survives(c: Casts, v: Value) {
    forall d | d in Wides(v) :: c.widen(c.narrow(d)) == d
  }

  lemma {:induction false} WidesAllHas(vs: seq<Value>, d: Wide)
    ensures d in WidesAll(vs) <==> exists i :: 0 <= i < |vs| && d in Wides(vs[i])
    decreases vs
  {
    if vs != [] {
      WidesAllHas(vs[1..], d);
      assert forall i | 0 < i < |vs| :: vs[i] == vs[1..][i - 1];
      assert forall i | 0 <= i < |vs| - 1 :: vs[1..][i] == vs[i + 1];
    }
  }

  lemma SurvivesParts(c: Casts, vs: seq<Value>)
    ensures Survives(c, Agg(vs)) <==> forall i | 0 <= i < |vs| :: Survives(c, vs[i])
  {
    forall d ensures d in WidesAll(vs) <==> exists i :: 0 <= i < |vs| && d in Wides(vs[i]) { WidesAllHas(vs, d); }
    assert Wides(Agg(vs)) == WidesAll(vs);
  }

  /** Narrowing and widening again changes nothing exactly when no double of the value is rounded. */
  lemma {:induction false} OneRegionExactIff(c: Casts, v: Value, ty: Ty)
    requires HasType(v, ty)
    ensures HasType(Narrowed(c, v), Erased(ty)) && (Widened(c, ty, Narrowed(c, v)) == v <==> Survives(c, v))
    decreases ty
  {
    NarrowedTyped(c, v, ty);
    match ty
    case WideTy => assert v.d in Wides(v);
    case ArrayTy(n, e) =>
      forall i | 0 <= i < n
        ensures HasType(Narrowed(c, v.parts[i]), Erased(e))
        ensures Widened(c, e, Narrowed(c, v.parts[i])) == v.parts[i] <==> Survives(c, v.parts[i])
      {
        OneRegionExactIff(c, v.parts[i], e);
      }
      SurvivesParts(c, v.parts);
      PartsEqual(Widened(c, ty, Narrowed(c, v)), v);
    case StructTy(ms) =>
      forall i | 0 <= i < |ms|
        ensures HasType(Narrowed(c, v.parts[i]), Erased(ms[i]))
        ensures Widened(c, ms[i], Narrowed(c, v.parts[i])) == v.parts[i] <==> Survives(c, v.parts[i])
      {
        OneRegionExactIff(c, v.parts[i], ms[i]);
      }
      SurvivesParts(c, v.parts);
      PartsEqual(Widened(c, ty, Narrowed(c, v)), v);
    case _ =>
  }

  lemma PartsEqual(u: Value, v: Value)
    requires u.Agg? && v.Agg? && |u.parts| == |v.parts|
    ensures u == v <==> forall i | 0 <= i < |v.parts| :: u.parts[i] == v.parts[i]
  {
  }

  /** Without doubles in the type the single region loses nothing and counts like the first of two. */
  lemma {:induction false} NoDoublesNoLoss(c: Casts, v: Value, ty: Ty)
    requires HasType(v, ty) && Doubles(ty) == 0
    ensures Survives(c, v) && Floats(Erased(ty)) == Floats(ty)
  {
    CountsAreSizes(v, ty);
    OneRegionSlots(ty);
  }

  // ---- which types hold doubles ----

  /** typeContainsDouble, on a type whose names are resolved. */
  predicate ContainsDouble(ty: Ty)
    decreases ty
  {
    match ty
    case WideTy => true
    case ArrayTy(_, e) => ContainsDouble(e)
    case StructTy(ms) => exists i | 0 <= i < |ms| :: ContainsDouble(ms[i])
    case _ => false
  }

  /** Array sizes are at least one. */
  predicate Sized(ty: Ty)
    decreases ty
  {
    match ty
    case ArrayTy(n, e) => n > 0 && Sized(e)
    case StructTy(ms) => forall i | 0 <= i < |ms| :: Sized(ms[i])
    case _ => true
  }

  /** A type takes a 64-bit slot exactly when it contains a double. */
  lemma {:induction false} DoublesIffContains(ty: Ty)
    requires Sized(ty)
    ensures ContainsDouble(ty) <==> Doubles(ty) > 0
    decreases ty, 1
  {
    match ty
    case ArrayTy(n, e) =>
      DoublesIffContains(e);
      RepeatedGrows(1, n, Doubles(e));
      RepeatedIsProduct(n, 0);
    case StructTy(ms) => MembersIffContain(ms);
    case _ =>
  }

  lemma {:induction false} MembersIffContain(tys: seq<Ty>)
    requires forall i | 0 <= i < |tys| :: Sized(tys[i])
    ensures (exists i | 0 <= i < |tys| :: ContainsDouble(tys[i])) <==> DoublesAll(tys) > 0
    decreases tys, 0
  {
    if tys != [] {
      DoublesIffContains(tys[0]);
      MembersIffContain(tys[1..]);
      assert forall i | 0 < i < |tys| :: tys[i] == tys[1..][i - 1];
      assert forall i | 0 <= i < |tys| - 1 :: tys[1..][i] == tys[i + 1];
    }
  }
}
