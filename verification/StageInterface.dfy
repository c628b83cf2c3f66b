/** Varyings from the vertex to the fragment stage: two trampolines that count offsets separately. */
module StageInterface {
  import opened AbiLayout
  import opened AbiRegions

  /** Where vs_invoke stores field `i`: behind the slots that flattening the earlier ones has used. */
  function StoreOffset(tys: seq<Ty>, i: nat): nat
    requires i <= |tys|
  {
    FloatsAll(ErasedAll(tys[..i]))
  }

  /** Where fs_invoke loads it: behind the slots that typeFloatCount gives the earlier ones. */
  function LoadOffset(tys: seq<Ty>, i: nat): nat
    requires i <= |tys|
  {
    FloatsAll(tys[..i])
  }

  /** The two stages agree on a field exactly when no double comes before it. */
  lemma OffsetsAgreeIff(tys: seq<Ty>, i: nat)
    requires i <= |tys|
    ensures StoreOffset(tys, i) == LoadOffset(tys, i) <==> DoublesAll(tys[..i]) == 0
    ensures StoreOffset(tys, i) == LoadOffset(tys, i) + DoublesAll(tys[..i])
  {
    OneRegionSlotsAll(tys[..i]);
  }

  lemma {:induction false} PartSlice(vs: seq<Value>, i: nat)
    requires i < |vs|
    ensures
      var at := |WordsAll(vs[..i])|;
      at + |Words(vs[i])| <= |WordsAll(vs)| && WordsAll(vs)[at..at + |Words(vs[i])|] == Words(vs[i])
    decreases vs
  {
    if i == 0 {
      assert WordsAll(vs)[..|Words(vs[0])|] == Words(vs[0]);
    } else {
      PartSlice(vs[1..], i - 1);
      assert vs[..i][1..] == vs[1..][..i - 1];
    }
  }

  /** What fs_invoke finds for a field: the value that stands at its offset. */
  ghost predicate FoundAt(c: Casts, ty: Ty, fs: seq<Word>, off: nat, v: Value) {
    exists u :: FoundAs(c, ty, fs, off, v, u)
  }

  ghost predicate FoundAs(c: Casts, ty: Ty, fs: seq<Word>, off: nat, v: Value, u: Value) {
    && HasType(u, Erased(ty)) && off + Floats(Erased(ty)) <= |fs|
    && Words(u) == fs[off..off + Floats(Erased(ty))] && v == Widened(c, ty, u)
  }

  /** Field `i`, loaded from behind `base`, lies within the region. */
  predicate LoadFits(tys: seq<Ty>, i: nat, base: nat, length: nat)
    requires i < |tys|
  {
    base + LoadOffset(tys, i) + Floats(Erased(tys[i])) <= length
  }

  lemma NextOffset(tys: seq<Ty>, i: nat)
    requires i < |tys|
    ensures LoadOffset(tys, i + 1) == LoadOffset(tys, i) + Floats(tys[i])
  {
    NextType(tys, i);
  }

  /** The parameters of the fragment shader, from the varyings at `base` and on. */
  method LoadVaryings(c: Casts, tys: seq<Ty>, fs: array<Word>, base: nat) returns (vs: seq<Value>)
    requires forall i | 0 <= i < |tys| :: LoadFits(tys, i, base, fs.Length)
    ensures |vs| == |tys|
    ensures forall i | 0 <= i < |tys| :: FoundAt(c, tys[i], fs[..], base + LoadOffset(tys, i), vs[i])
  {
    vs := [];
    var off := base;
    for i := 0 to |tys|
      invariant |vs| == i && off == base + LoadOffset(tys, i)
      invariant forall k | 0 <= k < i :: FoundAt(c, tys[k], fs[..], base + LoadOffset(tys, k), vs[k])
    {
      assert LoadFits(tys, i, base, fs.Length);
      var v, end;
      ghost var u;
      v, end, u := Load(c, tys[i], fs, off);
      assert FoundAs(c, tys[i], fs[..], off, v, u);
      vs := vs + [v];
      NextOffset(tys, i);
      off := off + Floats(tys[i]);
    }
  }

  /** A field behind no double is found as it was stored. */
  lemma FieldArrives(c: Casts, vals: seq<Value>, tys: seq<Ty>, i: nat, fs: seq<Word>, base: nat, v: Value)
    requires Typed(vals, tys) && i < |tys|
    requires DoublesAll(tys[..i]) == 0 && Doubles(tys[i]) == 0
    requires base + |WordsAll(NarrowedAll(c, vals))| <= |fs|
    requires fs[base..base + |WordsAll(NarrowedAll(c, vals))|] == WordsAll(NarrowedAll(c, vals))
    requires FoundAt(c, tys[i], fs, base + LoadOffset(tys, i), v)
    ensures v == vals[i]
  {
    var u :| FoundAs(c, tys[i], fs, base + LoadOffset(tys, i), v, u);
    FieldAt(c, vals, tys, i, fs, base);
    NarrowedTyped(c, vals[i], tys[i]);
    ErasedDetermined(u, Narrowed(c, vals[i]), tys[i]);
    NoDoublesNoLoss(c, vals[i], tys[i]);
    OneRegionExactIff(c, vals[i], tys[i]);
  }

  lemma ErasedDetermined(u: Value, w: Value, ty: Ty)
    requires HasType(u, Erased(ty)) && HasType(w, Erased(ty)) && Words(u) == Words(w)
    ensures u == w
  {
    NoWides(u, ty);
    NoWides(w, ty);
    SlotsDetermine(u, w, Erased(ty));
  }

  /** The words that a field without a double before it loads are those of its narrowed value. */
  lemma FieldAt(c: Casts, vals: seq<Value>, tys: seq<Ty>, i: nat, fs: seq<Word>, base: nat)
    requires Typed(vals, tys) && i < |tys| && DoublesAll(tys[..i]) == 0
    requires base + |WordsAll(NarrowedAll(c, vals))| <= |fs|
    requires fs[base..base + |WordsAll(NarrowedAll(c, vals))|] == WordsAll(NarrowedAll(c, vals))
    ensures
      var at := base + LoadOffset(tys, i);
      && at + Floats(Erased(tys[i])) <= |fs|
      && fs[at..at + Floats(Erased(tys[i]))] == Words(Narrowed(c, vals[i]))
  {
    var ws, w := WordsAll(NarrowedAll(c, vals)), Words(Narrowed(c, vals[i]));
    FieldPlace(c, vals, tys, i);
    SubSlice(fs, base, ws, LoadOffset(tys, i), w, Floats(Erased(tys[i])));
  }

  lemma FieldPlace(c: Casts, vals: seq<Value>, tys: seq<Ty>, i: nat)
    requires Typed(vals, tys) && i < |tys| && DoublesAll(tys[..i]) == 0
    ensures
      var ws, w, at := WordsAll(NarrowedAll(c, vals)), Words(Narrowed(c, vals[i])), LoadOffset(tys, i);
      |w| == Floats(Erased(tys[i])) && at + |w| <= |ws| && ws[at..at + |w|] == w
  {
    OffsetsAgreeIff(tys, i);
    NarrowedFit(c, vals[..i], tys[..i]);
    PrefixNarrowedAll(c, vals, i);
    NarrowedTyped(c, vals[i], tys[i]);
    CountsAreSizes(Narrowed(c, vals[i]), Erased(tys[i]));
    PartSlice(NarrowedAll(c, vals), i);
  }

  lemma SubSlice<T>(fs: seq<T>, base: nat, ws: seq<T>, at: nat, w: seq<T>, n: nat)
    requires base + |ws| <= |fs| && fs[base..base + |ws|] == ws && |w| == n && at + n <= |ws| && ws[at..at + n] == w
    ensures base + at + n <= |fs| && fs[base + at..base + at + n] == w
  {
    var a := fs[base + at..base + at + n];
    forall j | 0 <= j < |w| ensures a[j] == w[j] { assert fs[base..base + |ws|][at + j] == ws[at + j]; }
  }

  lemma {:induction false} NarrowedFit(c: Casts, vals: seq<Value>, tys: seq<Ty>)
    requires Typed(vals, tys)
    ensures |WordsAll(NarrowedAll(c, vals))| == FloatsAll(ErasedAll(tys))
  {
    forall k | 0 <= k < |tys| ensures HasType(NarrowedAll(c, vals)[k], ErasedAll(tys)[k]) { NarrowedTyped(c, vals[k], tys[k]); }
    StructSizes(NarrowedAll(c, vals), ErasedAll(tys));
  }

  lemma PrefixNarrowedAll(c: Casts, vals: seq<Value>, i: nat)
    requires i <= |vals|
    ensures NarrowedAll(c, vals)[..i] == NarrowedAll(c, vals[..i])
  {
  }

  /** From one stage to the other: the position, then the fields; every field up to the first that holds a double
      arrives, so all of them do when the types hold none. */
  method PassVaryings(c: Casts, position: Value, vals: seq<Value>, tys: seq<Ty>, out: array<Word>) returns (got: seq<Value>)
    requires HasType(position, VecTy(4)) && Typed(vals, tys)
    requires out.Length == 4 + FloatsAll(ErasedAll(tys))
    modifies out
    ensures |got| == |vals|
    ensures forall i | 0 <= i < |tys| && DoublesAll(tys[..i + 1]) == 0 :: got[i] == vals[i]
    ensures DoublesAll(tys) == 0 ==> got == vals
  {
    var all, fields := [position] + vals, [VecTy(4)] + tys;
    assert all[1..] == vals && fields[1..] == tys;
    BehindPosition(tys);
    var end := FlattenFields(c, all, fields, out, 0);
    NarrowedFit(c, vals, tys);
    StoredBehind(c, position, vals, old(out[..]), out[..]);
    forall i | 0 <= i < |tys| ensures LoadFits(tys, i, 4, out.Length) { LoadStaysInside(tys, i, 4); }
    got := LoadVaryings(c, tys, out, 4);
    forall i | 0 <= i < |tys| && DoublesAll(tys[..i + 1]) == 0 ensures got[i] == vals[i] {
      NextType(tys, i);
      FieldArrives(c, vals, tys, i, out[..], 4, got[i]);
    }
    if DoublesAll(tys) == 0 { AllArrive(got, vals, tys); }
  }

  lemma AllArrive(got: seq<Value>, vals: seq<Value>, tys: seq<Ty>)
    requires |got| == |vals| == |tys| && DoublesAll(tys) == 0
    requires forall i | 0 <= i < |tys| && DoublesAll(tys[..i + 1]) == 0 :: got[i] == vals[i]
    ensures got == vals
  {
    forall i | 0 <= i < |tys| ensures got[i] == vals[i] { NextType(tys, i); }
  }

  lemma StoredBehind(c: Casts, position: Value, vals: seq<Value>, before: seq<Word>, after: seq<Word>)
    requires HasType(position, VecTy(4)) && Stored(before, after, 0, WordsAll(NarrowedAll(c, [position] + vals)))
    ensures
      var ws := WordsAll(NarrowedAll(c, vals));
      4 + |ws| <= |after| && after[4..4 + |ws|] == ws
  {
    NarrowedFirst(c, position, vals);
    FirstPart(position, NarrowedAll(c, vals));
    BehindFirst(before, after, Words(position), WordsAll(NarrowedAll(c, vals)));
  }

  lemma NarrowedFirst(c: Casts, position: Value, vals: seq<Value>)
    requires position.V?
    ensures NarrowedAll(c, [position] + vals) == [position] + NarrowedAll(c, vals)
  {
    assert ([position] + vals)[1..] == vals;
  }

  lemma BehindFirst<T>(before: seq<T>, after: seq<T>, p: seq<T>, q: seq<T>)
    requires Stored(before, after, 0, p + q)
    ensures |p| + |q| <= |after| && after[|p|..|p| + |q|] == q
  {
    StoredSlice(before, after, 0, p + q);
    assert after[|p|..|p| + |q|] == after[0..|p + q|][|p|..];
  }

  lemma BehindPosition(tys: seq<Ty>)
    ensures FloatsAll(ErasedAll([VecTy(4)] + tys)) == 4 + FloatsAll(ErasedAll(tys))
  {
    var fields := [VecTy(4)] + tys;
    assert fields[1..] == tys && ErasedAll(fields) == [VecTy(4)] + ErasedAll(tys);
    assert ErasedAll(fields)[1..] == ErasedAll(tys);
  }

  lemma LoadStaysInside(tys: seq<Ty>, i: nat, base: nat)
    requires i < |tys|
    ensures LoadFits(tys, i, base, base + FloatsAll(ErasedAll(tys)))
  {
    OffsetsAgreeIff(tys, i);
    NextType(ErasedAll(tys), i);
    assert ErasedAll(tys)[..i] == ErasedAll(tys[..i]);
  }
}
