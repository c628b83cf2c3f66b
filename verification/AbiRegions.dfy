/** Flattening values into regions and loading them back, slot by slot. */
module AbiRegions {
  import opened AbiLayout

  /** `after` is `before` with `piece` stored at `off`. */
  ghost predicate Stored<T>(before: seq<T>, after: seq<T>, off: nat, piece: seq<T>) {
    off + |piece| <= |before| && after == before[..off] + piece + before[off + |piece|..]
  }

  lemma StoredThen<T>(a: seq<T>, b: seq<T>, c: seq<T>, off: nat, p: seq<T>, q: seq<T>)
    requires Stored(a, b, off, p) && Stored(b, c, off + |p|, q)
    ensures Stored(a, c, off, p + q)
  {
    assert b[..off + |p|] == a[..off] + p;
    assert b[off + |p| + |q|..] == a[off + |p| + |q|..];
  }

  lemma StoredSlice<T>(a: seq<T>, b: seq<T>, off: nat, p: seq<T>)
    requires Stored(a, b, off, p)
    ensures |b| == |a| && b[off..off + |p|] == p
  {
  }

  /** `slots` stand in the region from `off` up to `end`. */
  ghost predicate Holds<T>(a: array<T>, off: nat, end: nat, slots: seq<T>)
    reads a
  {
    off <= end <= a.Length && a[off..end] == slots
  }

  lemma HoldsThen<T>(a: array<T>, off: nat, at: nat, end: nat, p: seq<T>, q: seq<T>)
    requires Holds(a, off, at, p) && Holds(a, at, end, q)
    ensures Holds(a, off, end, p + q)
  {
    assert a[off..end] == a[off..at] + a[at..end];
  }

  /** The values stand in the regions, up to `fAt` and `dAt`, and `v` behind them. */
  lemma ElementLoaded(vs: seq<Value>, v: Value, fs: array<Word>, fOff: nat, fAt: nat, fEnd: nat, ds: array<Wide>, dOff: nat, dAt: nat, dEnd: nat)
    requires Holds(fs, fOff, fAt, WordsAll(vs)) && Holds(ds, dOff, dAt, WidesAll(vs))
    requires Holds(fs, fAt, fEnd, Words(v)) && Holds(ds, dAt, dEnd, Wides(v))
    ensures Holds(fs, fOff, fEnd, WordsAll(vs + [v])) && Holds(ds, dOff, dEnd, WidesAll(vs + [v]))
  {
    WordsSplit(vs, v);
    HoldsThen(fs, fOff, fAt, fEnd, WordsAll(vs), Words(v));
    HoldsThen(ds, dOff, dAt, dEnd, WidesAll(vs), Wides(v));
  }

  lemma WordsLoaded(us: seq<Value>, u: Value, fs: array<Word>, off: nat, at: nat, end: nat)
    requires Holds(fs, off, at, WordsAll(us)) && Holds(fs, at, end, Words(u))
    ensures Holds(fs, off, end, WordsAll(us + [u]))
  {
    WordsSplit(us, u);
    HoldsThen(fs, off, at, end, WordsAll(us), Words(u));
  }

  /** Values of the given types, one each; and values of one type. */
  ghost predicate Typed(vs: seq<Value>, tys: seq<Ty>) {
    |vs| == |tys| && forall i | 0 <= i < |tys| :: HasType(vs[i], tys[i])
  }

  ghost predicate AllTyped(vs: seq<Value>, e: Ty) {
    forall i | 0 <= i < |vs| :: HasType(vs[i], e)
  }

  lemma TypedThen(vs: seq<Value>, v: Value, tys: seq<Ty>, i: nat)
    requires i < |tys| && Typed(vs, tys[..i]) && HasType(v, tys[i])
    ensures Typed(vs + [v], tys[..i + 1])
  {
  }

  lemma Fits(i: nat, n: nat, k: nat)
    requires i < n
    ensures Repeated(i, k) + k == Repeated(i + 1, k) <= Repeated(n, k)
  {
    RepeatedGrows(i + 1, n, k);
  }

  lemma NextPart(vs: seq<Value>, i: nat)
    requires i < |vs|
    ensures WordsAll(vs[..i + 1]) == WordsAll(vs[..i]) + Words(vs[i])
    ensures WidesAll(vs[..i + 1]) == WidesAll(vs[..i]) + Wides(vs[i])
  {
    assert vs[..i + 1] == vs[..i] + [vs[i]];
    WordsSplit(vs[..i], vs[i]);
  }

  lemma NextType(tys: seq<Ty>, i: nat)
    requires i < |tys|
    ensures FloatsAll(tys[..i + 1]) == FloatsAll(tys[..i]) + Floats(tys[i]) <= FloatsAll(tys)
    ensures DoublesAll(tys[..i + 1]) == DoublesAll(tys[..i]) + Doubles(tys[i]) <= DoublesAll(tys)
    decreases tys
  {
    if i == 0 {
      assert tys[..1][1..] == [];
    } else {
      NextType(tys[1..], i - 1);
      assert tys[..i + 1][1..] == tys[1..][..i] && tys[..i][1..] == tys[1..][..i - 1];
    }
  }

  // ---- two regions ----

  /** Stores a value: 32-bit leaves at `fOff` and on, doubles at `dOff` and on. */
  method FlattenSplit(v: Value, ty: Ty, fs: array<Word>, fOff: nat, ds: array<Wide>, dOff: nat) returns (fEnd: nat, dEnd: nat)
    requires HasType(v, ty) && fOff + Floats(ty) <= fs.Length && dOff + Doubles(ty) <= ds.Length
    modifies fs, ds
    ensures fEnd == fOff + Floats(ty) && dEnd == dOff + Doubles(ty)
    ensures Stored(old(fs[..]), fs[..], fOff, Words(v)) && Stored(old(ds[..]), ds[..], dOff, Wides(v))
    decreases ty, 1
  {
    CountsAreSizes(v, ty);
    match ty
    case WordTy =>
      fs[fOff] := v.w;
      fEnd, dEnd := fOff + 1, dOff;
    case WideTy =>
      ds[dOff] := v.d;
      fEnd, dEnd := fOff, dOff + 1;
    case VecTy(n) =>
      StoreWords(v.ws, fs, fOff);
      fEnd, dEnd := fOff + n, dOff;
    case ArrayTy(n, e) => fEnd, dEnd := FlattenArray(v.parts, e, fs, fOff, ds, dOff);
    case StructTy(ms) => fEnd, dEnd := FlattenMembers(v.parts, ms, fs, fOff, ds, dOff);
  }

  method StoreWords(ws: seq<Word>, fs: array<Word>, off: nat)
    requires off + |ws| <= fs.Length
    modifies fs
    ensures Stored(old(fs[..]), fs[..], off, ws)
  {
    for i := 0 to |ws|
      invariant Stored(old(fs[..]), fs[..], off, ws[..i])
    {
      ghost var before := fs[..];
      fs[off + i] := ws[i];
      assert Stored(before, fs[..], off + i, [ws[i]]);
      StoredThen(old(fs[..]), before, fs[..], off, ws[..i], [ws[i]]);
      assert ws[..i + 1] == ws[..i] + [ws[i]];
    }
    assert ws[..|ws|] == ws;
  }

  /** One more element stored behind the first `i`. */
  lemma ElementStored(vs: seq<Value>, i: nat, f0: seq<Word>, f1: seq<Word>, f2: seq<Word>, fOff: nat, fAt: nat,
                      d0: seq<Wide>, d1: seq<Wide>, d2: seq<Wide>, dOff: nat, dAt: nat)
    requires i < |vs| && PrefixStored(vs, i, f0, f1, fOff, fAt, d0, d1, dOff, dAt)
    requires Stored(f1, f2, fAt, Words(vs[i])) && Stored(d1, d2, dAt, Wides(vs[i]))
    ensures PrefixStored(vs, i + 1, f0, f2, fOff, fAt + |Words(vs[i])|, d0, d2, dOff, dAt + |Wides(vs[i])|)
  {
    StoredThen(f0, f1, f2, fOff, WordsAll(vs[..i]), Words(vs[i]));
    StoredThen(d0, d1, d2, dOff, WidesAll(vs[..i]), Wides(vs[i]));
    NextPart(vs, i);
  }

  /** The first `i` values stand in both regions, up to `fAt` and `dAt`. */
  ghost predicate PrefixStored(vs: seq<Value>, i: nat, f0: seq<Word>, f: seq<Word>, fOff: nat, fAt: nat,
                               d0: seq<Wide>, d: seq<Wide>, dOff: nat, dAt: nat)
  {
    && i <= |vs| && fAt == fOff + |WordsAll(vs[..i])| && dAt == dOff + |WidesAll(vs[..i])|
    && Stored(f0, f, fOff, WordsAll(vs[..i])) && Stored(d0, d, dOff, WidesAll(vs[..i]))
  }

  lemma ElementFits(vs: seq<Value>, i: nat, e: Ty)
    requires i < |vs| && AllTyped(vs, e)
    ensures HasType(vs[i], e) && |Words(vs[i])| == Floats(e) && |Wides(vs[i])| == Doubles(e)
    ensures Repeated(i, Floats(e)) + Floats(e) == Repeated(i + 1, Floats(e)) <= Repeated(|vs|, Floats(e))
    ensures Repeated(i, Doubles(e)) + Doubles(e) == Repeated(i + 1, Doubles(e)) <= Repeated(|vs|, Doubles(e))
  {
    Fits(i, |vs|, Floats(e));
    Fits(i, |vs|, Doubles(e));
    CountsAreSizes(vs[i], e);
  }

  method FlattenArray(vs: seq<Value>, e: Ty, fs: array<Word>, fOff: nat, ds: array<Wide>, dOff: nat) returns (fEnd: nat, dEnd: nat)
    requires AllTyped(vs, e)
    requires fOff + Repeated(|vs|, Floats(e)) <= fs.Length && dOff + Repeated(|vs|, Doubles(e)) <= ds.Length
    modifies fs, ds
    ensures fEnd == fOff + Repeated(|vs|, Floats(e)) && dEnd == dOff + Repeated(|vs|, Doubles(e))
    ensures Stored(old(fs[..]), fs[..], fOff, WordsAll(vs)) && Stored(old(ds[..]), ds[..], dOff, WidesAll(vs))
    decreases e, 2
  {
    fEnd, dEnd := fOff, dOff;
    for i := 0 to |vs|
      invariant fEnd == fOff + Repeated(i, Floats(e)) && dEnd == dOff + Repeated(i, Doubles(e))
      invariant PrefixStored(vs, i, old(fs[..]), fs[..], fOff, fEnd, old(ds[..]), ds[..], dOff, dEnd)
    {
      ElementFits(vs, i, e);
      ghost var f1, d1, fAt, dAt := fs[..], ds[..], fEnd, dEnd;
      fEnd, dEnd := FlattenSplit(vs[i], e, fs, fEnd, ds, dEnd);
      ElementStored(vs, i, old(fs[..]), f1, fs[..], fOff, fAt, old(ds[..]), d1, ds[..], dOff, dAt);
    }
    assert vs[..|vs|] == vs;
  }

  method FlattenMembers(vs: seq<Value>, tys: seq<Ty>, fs: array<Word>, fOff: nat, ds: array<Wide>, dOff: nat)
    returns (fEnd: nat, dEnd: nat)
    requires Typed(vs, tys)
    requires fOff + FloatsAll(tys) <= fs.Length && dOff + DoublesAll(tys) <= ds.Length
    modifies fs, ds
    ensures fEnd == fOff + FloatsAll(tys) && dEnd == dOff + DoublesAll(tys)
    ensures Stored(old(fs[..]), fs[..], fOff, WordsAll(vs)) && Stored(old(ds[..]), ds[..], dOff, WidesAll(vs))
    decreases tys, 0
  {
    fEnd, dEnd := fOff, dOff;
    for i := 0 to |vs|
      invariant fEnd == fOff + FloatsAll(tys[..i]) && dEnd == dOff + DoublesAll(tys[..i])
      invariant PrefixStored(vs, i, old(fs[..]), fs[..], fOff, fEnd, old(ds[..]), ds[..], dOff, dEnd)
    {
      NextType(tys, i);
      CountsAreSizes(vs[i], tys[i]);
      ghost var f1, d1, fAt, dAt := fs[..], ds[..], fEnd, dEnd;
      fEnd, dEnd := FlattenSplit(vs[i], tys[i], fs, fEnd, ds, dEnd);
      ElementStored(vs, i, old(fs[..]), f1, fs[..], fOff, fAt, old(ds[..]), d1, ds[..], dOff, dAt);
    }
    assert vs[..|vs|] == vs && tys[..|tys|] == tys;
  }

  /** Loads the value whose slots stand at `fOff` and `dOff`. */
  method LoadSplit(ty: Ty, fs: array<Word>, fOff: nat, ds: array<Wide>, dOff: nat) returns (v: Value, fEnd: nat, dEnd: nat)
    requires fOff + Floats(ty) <= fs.Length && dOff + Doubles(ty) <= ds.Length
    ensures fEnd == fOff + Floats(ty) && dEnd == dOff + Doubles(ty)
    ensures HasType(v, ty) && Holds(fs, fOff, fEnd, Words(v)) && Holds(ds, dOff, dEnd, Wides(v))
    decreases ty, 1
  {
    match ty
    case WordTy => v, fEnd, dEnd := W(fs[fOff]), fOff + 1, dOff;
    case WideTy => v, fEnd, dEnd := D(ds[dOff]), fOff, dOff + 1;
    case VecTy(n) =>
      var ws := LoadWords(n, fs, fOff);
      v, fEnd, dEnd := V(ws), fOff + n, dOff;
    case ArrayTy(n, e) =>
      var parts;
      parts, fEnd, dEnd := LoadArray(n, e, fs, fOff, ds, dOff);
      v := Agg(parts);
    case StructTy(ms) =>
      var parts;
      parts, fEnd, dEnd := LoadMembers(ms, fs, fOff, ds, dOff);
      v := Agg(parts);
  }

  method LoadWords(n: nat, fs: array<Word>, off: nat) returns (ws: seq<Word>)
    requires off + n <= fs.Length
    ensures ws == fs[off..off + n]
  {
    ws := [];
    for i := 0 to n
      invariant ws == fs[off..off + i]
    {
      ws := ws + [fs[off + i]];
    }
  }

  method LoadArray(n: nat, e: Ty, fs: array<Word>, fOff: nat, ds: array<Wide>, dOff: nat)
    returns (vs: seq<Value>, fEnd: nat, dEnd: nat)
    requires fOff + Repeated(n, Floats(e)) <= fs.Length && dOff + Repeated(n, Doubles(e)) <= ds.Length
    ensures fEnd == fOff + Repeated(n, Floats(e)) && dEnd == dOff + Repeated(n, Doubles(e))
    ensures |vs| == n && AllTyped(vs, e)
    ensures Holds(fs, fOff, fEnd, WordsAll(vs)) && Holds(ds, dOff, dEnd, WidesAll(vs))
    decreases e, 2
  {
    vs, fEnd, dEnd := [], fOff, dOff;
    for i := 0 to n
      invariant fEnd == fOff + Repeated(i, Floats(e)) && dEnd == dOff + Repeated(i, Doubles(e))
      invariant |vs| == i && AllTyped(vs, e)
      invariant Holds(fs, fOff, fEnd, WordsAll(vs)) && Holds(ds, dOff, dEnd, WidesAll(vs))
    {
      Fits(i, n, Floats(e));
      Fits(i, n, Doubles(e));
      ghost var fAt, dAt := fEnd, dEnd;
      var v;
      v, fEnd, dEnd := LoadSplit(e, fs, fEnd, ds, dEnd);
      ElementLoaded(vs, v, fs, fOff, fAt, fEnd, ds, dOff, dAt, dEnd);
      vs := vs + [v];
    }
  }

  method LoadMembers(tys: seq<Ty>, fs: array<Word>, fOff: nat, ds: array<Wide>, dOff: nat)
    returns (vs: seq<Value>, fEnd: nat, dEnd: nat)
    requires fOff + FloatsAll(tys) <= fs.Length && dOff + DoublesAll(tys) <= ds.Length
    ensures fEnd == fOff + FloatsAll(tys) && dEnd == dOff + DoublesAll(tys)
    ensures Typed(vs, tys)
    ensures Holds(fs, fOff, fEnd, WordsAll(vs)) && Holds(ds, dOff, dEnd, WidesAll(vs))
    decreases tys, 0
  {
    vs, fEnd, dEnd := [], fOff, dOff;
    for i := 0 to |tys|
      invariant fEnd == fOff + FloatsAll(tys[..i]) && dEnd == dOff + DoublesAll(tys[..i])
      invariant Typed(vs, tys[..i])
      invariant Holds(fs, fOff, fEnd, WordsAll(vs)) && Holds(ds, dOff, dEnd, WidesAll(vs))
    {
      NextType(tys, i);
      ghost var fAt, dAt := fEnd, dEnd;
      var v;
      v, fEnd, dEnd := LoadSplit(tys[i], fs, fEnd, ds, dEnd);
      ElementLoaded(vs, v, fs, fOff, fAt, fEnd, ds, dOff, dAt, dEnd);
      TypedThen(vs, v, tys, i);
      vs := vs + [v];
    }
    assert tys[..|tys|] == tys;
  }

  /** Flatten, then load from the same offsets: the same value, and the offsets agree. */
  method RoundTripSplit(v: Value, ty: Ty, fs: array<Word>, fOff: nat, ds: array<Wide>, dOff: nat) returns (u: Value)
    requires HasType(v, ty) && fOff + Floats(ty) <= fs.Length && dOff + Doubles(ty) <= ds.Length
    modifies fs, ds
    ensures u == v
  {
    CountsAreSizes(v, ty);
    var fEnd, dEnd := FlattenSplit(v, ty, fs, fOff, ds, dOff);
    StoredSlice(old(fs[..]), fs[..], fOff, Words(v));
    StoredSlice(old(ds[..]), ds[..], dOff, Wides(v));
    var fEnd', dEnd';
    u, fEnd', dEnd' := LoadSplit(ty, fs, fOff, ds, dOff);
    assert Words(u) == fs[..][fOff..fEnd] && Wides(u) == ds[..][dOff..dEnd];
    SlotsDetermine(u, v, ty);
  }

  // ---- one region ----

  /** Stores a value into words only; doubles are narrowed. */
  method Flatten(c: Casts, v: Value, ty: Ty, fs: array<Word>, off: nat) returns (end: nat)
    requires HasType(v, ty) && off + Floats(Erased(ty)) <= fs.Length
    modifies fs
    ensures end == off + Floats(Erased(ty))
    ensures Stored(old(fs[..]), fs[..], off, Words(Narrowed(c, v)))
    decreases ty, 1
  {
    match ty
    case WordTy =>
      fs[off] := v.w;
      end := off + 1;
    case WideTy =>
      fs[off] := c.narrow(v.d);
      end := off + 1;
    case VecTy(n) =>
      StoreWords(v.ws, fs, off);
      end := off + n;
    case ArrayTy(n, e) =>
      end := FlattenElements(c, v.parts, e, fs, off);
    case StructTy(ms) =>
      end := FlattenFields(c, v.parts, ms, fs, off);
  }

  /** The first `i` values stand in the region, narrowed, up to `at`. */
  ghost predicate PrefixNarrowed(c: Casts, vs: seq<Value>, i: nat, f0: seq<Word>, f: seq<Word>, off: nat, at: nat) {
    i <= |vs| && at == off + |WordsAll(NarrowedAll(c, vs[..i]))| && Stored(f0, f, off, WordsAll(NarrowedAll(c, vs[..i])))
  }

  lemma NextNarrowed(c: Casts, vs: seq<Value>, i: nat)
    requires i < |vs|
    ensures WordsAll(NarrowedAll(c, vs[..i + 1])) == WordsAll(NarrowedAll(c, vs[..i])) + Words(Narrowed(c, vs[i]))
  {
    assert NarrowedAll(c, vs[..i + 1]) == NarrowedAll(c, vs[..i]) + [Narrowed(c, vs[i])];
    WordsSplit(NarrowedAll(c, vs[..i]), Narrowed(c, vs[i]));
  }

  lemma NarrowedStored(c: Casts, vs: seq<Value>, i: nat, f0: seq<Word>, f1: seq<Word>, f2: seq<Word>, off: nat, at: nat)
    requires i < |vs| && PrefixNarrowed(c, vs, i, f0, f1, off, at) && Stored(f1, f2, at, Words(Narrowed(c, vs[i])))
    ensures PrefixNarrowed(c, vs, i + 1, f0, f2, off, at + |Words(Narrowed(c, vs[i]))|)
  {
    StoredThen(f0, f1, f2, off, WordsAll(NarrowedAll(c, vs[..i])), Words(Narrowed(c, vs[i])));
    NextNarrowed(c, vs, i);
  }

  method FlattenElements(c: Casts, vs: seq<Value>, e: Ty, fs: array<Word>, off: nat) returns (end: nat)
    requires AllTyped(vs, e)
    requires off + Repeated(|vs|, Floats(Erased(e))) <= fs.Length
    modifies fs
    ensures end == off + Repeated(|vs|, Floats(Erased(e)))
    ensures Stored(old(fs[..]), fs[..], off, WordsAll(NarrowedAll(c, vs)))
    decreases e, 2
  {
    end := off;
    for i := 0 to |vs|
      invariant end == off + Repeated(i, Floats(Erased(e)))
      invariant PrefixNarrowed(c, vs, i, old(fs[..]), fs[..], off, end)
    {
      Fits(i, |vs|, Floats(Erased(e)));
      NarrowedTyped(c, vs[i], e);
      CountsAreSizes(Narrowed(c, vs[i]), Erased(e));
      ghost var before, at := fs[..], end;
      end := Flatten(c, vs[i], e, fs, end);
      NarrowedStored(c, vs, i, old(fs[..]), before, fs[..], off, at);
    }
    assert vs[..|vs|] == vs;
  }

  method FlattenFields(c: Casts, vs: seq<Value>, tys: seq<Ty>, fs: array<Word>, off: nat) returns (end: nat)
    requires Typed(vs, tys)
    requires off + FloatsAll(ErasedAll(tys)) <= fs.Length
    modifies fs
    ensures end == off + FloatsAll(ErasedAll(tys))
    ensures Stored(old(fs[..]), fs[..], off, WordsAll(NarrowedAll(c, vs)))
    decreases tys, 0
  {
    end := off;
    for i := 0 to |vs|
      invariant end == off + FloatsAll(ErasedAll(tys)[..i])
      invariant PrefixNarrowed(c, vs, i, old(fs[..]), fs[..], off, end)
    {
      NextType(ErasedAll(tys), i);
      NarrowedTyped(c, vs[i], tys[i]);
      CountsAreSizes(Narrowed(c, vs[i]), Erased(tys[i]));
      ghost var before, at := fs[..], end;
      end := Flatten(c, vs[i], tys[i], fs, end);
      NarrowedStored(c, vs, i, old(fs[..]), before, fs[..], off, at);
    }
    assert vs[..|vs|] == vs && ErasedAll(tys)[..|tys|] == ErasedAll(tys);
  }

  /** Loads a value from words only: `u` is what stands there, and its words for doubles are widened. */
  method Load(c: Casts, ty: Ty, fs: array<Word>, off: nat) returns (v: Value, end: nat, ghost u: Value)
    requires off + Floats(Erased(ty)) <= fs.Length
    ensures end == off + Floats(Erased(ty))
    ensures HasType(u, Erased(ty)) && Holds(fs, off, end, Words(u)) && v == Widened(c, ty, u)
    decreases ty, 1
  {
    match ty
    case WordTy =>
      v, end := W(fs[off]), off + 1;
      u := v;
    case WideTy =>
      v, end := D(c.widen(fs[off])), off + 1;
      u := W(fs[off]);
    case VecTy(n) =>
      var ws := LoadWords(n, fs, off);
      v, end := V(ws), off + n;
      u := v;
    case ArrayTy(n, e) =>
      var vs;
      ghost var us;
      vs, end, us := LoadElements(c, n, e, fs, off);
      v, u := Agg(vs), Agg(us);
    case StructTy(ms) =>
      var vs;
      ghost var us;
      vs, end, us := LoadFields(c, ms, fs, off);
      v, u := Agg(vs), Agg(us);
  }

  method LoadElements(c: Casts, n: nat, e: Ty, fs: array<Word>, off: nat) returns (vs: seq<Value>, end: nat, ghost us: seq<Value>)
    requires off + Repeated(n, Floats(Erased(e))) <= fs.Length
    ensures end == off + Repeated(n, Floats(Erased(e))) && |us| == n && Holds(fs, off, end, WordsAll(us))
    ensures AllTyped(us, Erased(e)) && AllWidened(c, e, us, vs)
    decreases e, 2
  {
    vs, us, end := [], [], off;
    for i := 0 to n
      invariant end == off + Repeated(i, Floats(Erased(e))) && |us| == i && Holds(fs, off, end, WordsAll(us))
      invariant AllTyped(us, Erased(e)) && AllWidened(c, e, us, vs)
    {
      Fits(i, n, Floats(Erased(e)));
      ghost var at := end;
      var v;
      ghost var u;
      v, end, u := Load(c, e, fs, end);
      WordsLoaded(us, u, fs, off, at, end);
      vs, us := vs + [v], us + [u];
    }
  }

  /** The values are those of the erased types, widened again, one each; for one type and for several. */
  ghost predicate AllWidened(c: Casts, e: Ty, us: seq<Value>, vs: seq<Value>)
    requires AllTyped(us, Erased(e))
  {
    |vs| == |us| && forall i | 0 <= i < |us| :: vs[i] == Widened(c, e, us[i])
  }

  ghost predicate EachWidened(c: Casts, tys: seq<Ty>, us: seq<Value>, vs: seq<Value>)
    requires Typed(us, ErasedAll(tys))
  {
    |vs| == |us| && forall i | 0 <= i < |us| :: vs[i] == Widened(c, tys[i], us[i])
  }

  lemma EachWidenedThen(c: Casts, tys: seq<Ty>, i: nat, us: seq<Value>, u: Value, vs: seq<Value>, v: Value)
    requires i < |tys| && Typed(us, ErasedAll(tys[..i])) && EachWidened(c, tys[..i], us, vs)
    requires HasType(u, Erased(tys[i])) && v == Widened(c, tys[i], u)
    ensures Typed(us + [u], ErasedAll(tys[..i + 1])) && EachWidened(c, tys[..i + 1], us + [u], vs + [v])
  {
    assert Typed(us + [u], ErasedAll(tys[..i + 1]));
  }

  method LoadFields(c: Casts, tys: seq<Ty>, fs: array<Word>, off: nat) returns (vs: seq<Value>, end: nat, ghost us: seq<Value>)
    requires off + FloatsAll(ErasedAll(tys)) <= fs.Length
    ensures end == off + FloatsAll(ErasedAll(tys)) && Holds(fs, off, end, WordsAll(us))
    ensures Typed(us, ErasedAll(tys)) && EachWidened(c, tys, us, vs)
    decreases tys, 0
  {
    vs, us, end := [], [], off;
    for i := 0 to |tys|
      invariant end == off + FloatsAll(ErasedAll(tys)[..i]) && Holds(fs, off, end, WordsAll(us))
      invariant Typed(us, ErasedAll(tys[..i])) && EachWidened(c, tys[..i], us, vs)
    {
      NextType(ErasedAll(tys), i);
      ghost var at := end;
      var v;
      ghost var u;
      v, end, u := Load(c, tys[i], fs, end);
      WordsLoaded(us, u, fs, off, at, end);
      EachWidenedThen(c, tys, i, us, u, vs, v);
      vs, us := vs + [v], us + [u];
    }
    assert ErasedAll(tys)[..|tys|] == ErasedAll(tys);
    assert tys[..|tys|] == tys;
  }

  /** In one region a value comes back exactly when none of its doubles is rounded. */
  method RoundTrip(c: Casts, v: Value, ty: Ty, fs: array<Word>, off: nat) returns (u: Value, end: nat)
    requires HasType(v, ty) && off + Floats(Erased(ty)) <= fs.Length
    modifies fs
    ensures u == v <==> Survives(c, v)
    ensures end == off + Floats(ty) <==> Doubles(ty) == 0
    ensures Doubles(ty) == 0 ==> u == v
  {
    NarrowedTyped(c, v, ty);
    CountsAreSizes(Narrowed(c, v), Erased(ty));
    OneRegionSlots(ty);
    end := Flatten(c, v, ty, fs, off);
    StoredSlice(old(fs[..]), fs[..], off, Words(Narrowed(c, v)));
    var end';
    ghost var w;
    u, end', w := Load(c, ty, fs, off);
    assert Words(w) == fs[..][off..end];
    CountsAreSizes(w, Erased(ty));
    NoWides(w, ty);
    NoWides(Narrowed(c, v), ty);
    SlotsDetermine(w, Narrowed(c, v), Erased(ty));
    OneRegionExactIff(c, v, ty);
    if Doubles(ty) == 0 { NoDoublesNoLoss(c, v, ty); }
  }

  /** Erased types hold no doubles. */
  lemma {:induction false} NoWides(u: Value, ty: Ty)
    requires HasType(u, Erased(ty))
    ensures Wides(u) == []
  {
    ErasedHasNone(ty);
    CountsAreSizes(u, Erased(ty));
  }

  lemma {:induction false} ErasedHasNone(ty: Ty)
    ensures Doubles(Erased(ty)) == 0
    decreases ty, 1
  {
    match ty
    case ArrayTy(n, e) =>
      ErasedHasNone(e);
      RepeatedIsProduct(n, 0);
    case StructTy(ms) => ErasedAllHasNone(ms);
    case _ =>
  }

  lemma {:induction false} ErasedAllHasNone(tys: seq<Ty>)
    ensures DoublesAll(ErasedAll(tys)) == 0
    decreases tys, 0
  {
    if tys != [] {
      ErasedHasNone(tys[0]);
      ErasedAllHasNone(tys[1..]);
      assert ErasedAll(tys)[1..] == ErasedAll(tys[1..]);
    }
  }
}
