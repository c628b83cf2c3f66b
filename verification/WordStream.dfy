/** The SPIR-V word stream: instructions to words to bytes, and back. */
module WordStream {
  import opened ShaderAst

  type Byte = b: int | 0 <= b < 0x100
  type Word = w: int | 0 <= w < 0x1_0000_0000

  /** An instruction: plain operand words, or words, a literal string, and more words. */
  datatype Inst =
    | Plain(op: nat, operands: seq<Word>)
    | Text(op: nat, prefix: seq<Word>, str: seq<Byte>, suffix: seq<Word>)

  // ---- words ----

  function Join(a: Byte, b: Byte, c: Byte, d: Byte): Word {
    a + 0x100 * b + 0x1_0000 * c + 0x100_0000 * d
  }

  /** Byte `i` of a word, low byte first. */
  function ByteOf(w: Word, i: nat): Byte
    requires i < 4
  {
    if i == 0 then w % 0x100
    else if i == 1 then (w / 0x100) % 0x100
    else if i == 2 then (w / 0x1_0000) % 0x100
    else (w / 0x100_0000) % 0x100
  }

  lemma JoinSplits(a: Byte, b: Byte, c: Byte, d: Byte)
    ensures
      var w := Join(a, b, c, d);
      ByteOf(w, 0) == a && ByteOf(w, 1) == b && ByteOf(w, 2) == c && ByteOf(w, 3) == d
  {
    var w := Join(a, b, c, d);
    assert w / 0x100_0000 == d;
    assert w / 0x1_0000 == c + 0x100 * d;
    assert w / 0x100 == b + 0x100 * c + 0x1_0000 * d;
  }

  lemma SplitJoins(w: Word)
    ensures Join(ByteOf(w, 0), ByteOf(w, 1), ByteOf(w, 2), ByteOf(w, 3)) == w
  {
    var a := w / 0x100;
    var b := a / 0x100;
    ShiftTwice(w);
    ShiftTwice(a);
    ShiftThrice(w);
    assert w == w % 0x100 + 0x100 * a && a == a % 0x100 + 0x100 * b && b == b % 0x100 + 0x100 * (b / 0x100);
  }

  lemma ShiftTwice(w: nat)
    ensures w / 0x100 / 0x100 == w / 0x1_0000
  {
  }

  lemma ShiftThrice(w: nat)
    ensures w / 0x1_0000 / 0x100 == w / 0x100_0000
  {
  }

  // ---- instruction headers ----

  /** (wordCount << 16) | op in 32 bits. */
  function Header(count: nat, op: nat): (w: Word)
    requires op < 0x1_0000
  {
    (count * 0x1_0000) % 0x1_0000_0000 + op
  }

  /** The header gives back its word count exactly when the count fits 16 bits; the opcode always survives. */
  lemma HeaderFits(count: nat, op: nat)
    requires op < 0x1_0000
    ensures Header(count, op) / 0x1_0000 == count <==> count < 0x1_0000
    ensures Header(count, op) % 0x1_0000 == op
  {
    assert (count * 0x1_0000) % 0x1_0000_0000 == (count % 0x1_0000) * 0x1_0000;
  }

  // ---- strings ----

  function At(s: seq<Byte>, i: nat): Byte {
    if i < |s| then s[i] else 0
  }

  /** The NUL-terminated, zero-padded words of a string. */
  function StringWords(s: seq<Byte>): (ws: seq<Word>)
    ensures |ws| == (|s| + 4) / 4
  {
    [Join(At(s, 0), At(s, 1), At(s, 2), At(s, 3))] + if |s| < 4 then [] else StringWords(s[4..])
  }

  predicate NulFree(s: seq<Byte>) {
    0 !in s
  }

  /** A literal string at the front of some words, up to its first NUL. */
  function ReadString(ws: seq<Word>): Option<(seq<Byte>, seq<Word>)>
    decreases ws
  {
    if ws == [] then None
    else
      var a, b, c, d := ByteOf(ws[0], 0), ByteOf(ws[0], 1), ByteOf(ws[0], 2), ByteOf(ws[0], 3);
      if a == 0 then Some(([], ws[1..]))
      else if b == 0 then Some(([a], ws[1..]))
      else if c == 0 then Some(([a, b], ws[1..]))
      else if d == 0 then Some(([a, b, c], ws[1..]))
      else
        match ReadString(ws[1..])
        case None => None
        case Some(r) => Some(([a, b, c, d] + r.0, r.1))
  }

  lemma {:induction false} ReadBack(s: seq<Byte>, rest: seq<Word>)
    requires NulFree(s)
    ensures ReadString(StringWords(s) + rest) == Some((s, rest))
    decreases |s|
  {
    var ws := StringWords(s) + rest;
    JoinSplits(At(s, 0), At(s, 1), At(s, 2), At(s, 3));
    if |s| < 4 {
      assert ws[1..] == rest;
      assert s == if |s| == 0 then [] else if |s| == 1 then [s[0]] else if |s| == 2 then [s[0], s[1]] else [s[0], s[1], s[2]];
    } else {
      assert ws[1..] == StringWords(s[4..]) + rest;
      ReadBack(s[4..], rest);
      assert [s[0], s[1], s[2], s[3]] + s[4..] == s;
    }
  }

  lemma {:induction false} ReadIsNulFree(ws: seq<Word>)
    ensures ReadString(ws).Some? ==> NulFree(ReadString(ws).value.0)
    decreases ws
  {
    if ws != [] { ReadIsNulFree(ws[1..]); }
  }

  // ---- instructions ----

  function Operands(i: Inst): seq<Word> {
    match i
    case Plain(_, ws) => ws
    case Text(_, p, s, q) => p + StringWords(s) + q
  }

  function WordCount(i: Inst): nat {
    1 + |Operands(i)|
  }

  function Encode(i: Inst): seq<Word>
    requires i.op < 0x1_0000
  {
    [Header(WordCount(i), i.op)] + Operands(i)
  }

  predicate OpsFit(code: seq<Inst>) {
    forall k | 0 <= k < |code| :: code[k].op < 0x1_0000
  }

  function EncodeAll(code: seq<Inst>): seq<Word>
    requires OpsFit(code)
  {
    if code == [] then [] else Encode(code[0]) + EncodeAll(code[1..])
  }

  /** Which opcodes carry a literal string, and after how many words. */
  type Grammar = nat -> Option<nat>

  /** The instruction has the form its opcode asks for, and its word count fits the header. */
  predicate Encodable(gr: Grammar, i: Inst)
  {
    && i.op < 0x1_0000 && WordCount(i) < 0x1_0000
    && (if i.Plain? then gr(i.op) == None else gr(i.op) == Some(|i.prefix|) && NulFree(i.str))
  }

  function DecodeOne(gr: Grammar, op: nat, body: seq<Word>): Option<Inst> {
    match gr(op)
    case None => Some(Plain(op, body))
    case Some(at) =>
      if at > |body| then None
      else
        match ReadString(body[at..])
        case None => None
        case Some(r) => Some(Text(op, body[..at], r.0, r.1))
  }

  /** Walks the stream by the word counts in the headers. */
  function Decode(gr: Grammar, ws: seq<Word>): Option<seq<Inst>>
    decreases |ws|
  {
    if ws == [] then Some([])
    else
      var count, op := ws[0] / 0x1_0000, ws[0] % 0x1_0000;
      if count == 0 || count > |ws| then None
      else
        match DecodeOne(gr, op, ws[1..count])
        case None => None
        case Some(i) =>
          match Decode(gr, ws[count..])
          case None => None
          case Some(rest) => Some([i] + rest)
  }

  lemma DecodeEncoded(gr: Grammar, i: Inst)
    requires Encodable(gr, i)
    ensures DecodeOne(gr, i.op, Operands(i)) == Some(i)
  {
    if i.Text? {
      var body := Operands(i);
      assert body == i.prefix + (StringWords(i.str) + i.suffix);
      assert body[|i.prefix|..] == StringWords(i.str) + i.suffix && body[..|i.prefix|] == i.prefix;
      ReadBack(i.str, i.suffix);
    }
  }

  /** The decoder reads one instruction and goes on with the words behind it. */
  lemma DecodeFirst(gr: Grammar, i: Inst, rest: seq<Word>, ws: seq<Word>)
    requires Encodable(gr, i) && ws == Encode(i) + rest
    ensures
      var r := Decode(gr, rest);
      Decode(gr, ws) == if r.None? then None else Some([i] + r.value)
  {
    var count := WordCount(i);
    HeaderFits(count, i.op);
    assert ws[0] == Header(count, i.op) && ws[1..count] == Operands(i) && ws[count..] == rest;
    DecodeEncoded(gr, i);
  }

  ghost predicate AllEncodable(gr: Grammar, code: seq<Inst>) {
    forall k | 0 <= k < |code| :: Encodable(gr, code[k])
  }

  lemma DecodeNext(gr: Grammar, i: Inst, rest: seq<Inst>, words: seq<Word>, ws: seq<Word>)
    requires Encodable(gr, i) && ws == Encode(i) + words && Decode(gr, words) == Some(rest)
    ensures Decode(gr, ws) == Some([i] + rest)
  {
    DecodeFirst(gr, i, words, ws);
  }

  /** Decoding the words of encodable instructions gives the instructions back. */
  lemma {:induction false} WordsRoundTrip(gr: Grammar, code: seq<Inst>)
    requires OpsFit(code) && AllEncodable(gr, code)
    ensures Decode(gr, EncodeAll(code)) == Some(code)
  {
    if code == [] {
      assert EncodeAll(code) == [];
    } else {
      var first, rest := code[0], code[1..];
      WordsRoundTrip(gr, rest);
      DecodeNext(gr, first, rest, EncodeAll(rest), EncodeAll(code));
      assert [first] + rest == code;
    }
  }

  /** A string that is read takes up as many words as it would be packed into. */
  lemma {:induction false} ReadLength(ws: seq<Word>)
    ensures
      var r := ReadString(ws);
      r.Some? ==> |StringWords(r.value.0)| + |r.value.1| == |ws|
    decreases ws
  {
    if ws != [] { ReadLength(ws[1..]); }
  }

  /** Only encodable instructions come out of a decoder. */
  lemma {:induction false} DecodedIsEncodable(gr: Grammar, ws: seq<Word>)
    ensures Decode(gr, ws).Some? ==> AllEncodable(gr, Decode(gr, ws).value)
    decreases |ws|
  {
    if ws != [] {
      var count, op := ws[0] / 0x1_0000, ws[0] % 0x1_0000;
      if 0 < count <= |ws| {
        var body := ws[1..count];
        if gr(op).Some? && gr(op).value <= |body| {
          ReadLength(body[gr(op).value..]);
          ReadIsNulFree(body[gr(op).value..]);
        }
        DecodedIsEncodable(gr, ws[count..]);
      }
    }
  }

  /** Decoding recovers an instruction list exactly when every instruction has its opcode's form, NUL-free strings,
      and a word count of at most 16 bits. */
  lemma RoundTripExact(gr: Grammar, code: seq<Inst>)
    requires OpsFit(code)
    ensures Decode(gr, EncodeAll(code)) == Some(code) <==> AllEncodable(gr, code)
  {
    if AllEncodable(gr, code) { WordsRoundTrip(gr, code); }
    DecodedIsEncodable(gr, EncodeAll(code));
  }

  // ---- bytes ----

  function ToBytes(ws: seq<Word>): (bs: seq<Byte>)
    ensures |bs| == 4 * |ws|
    ensures forall i | 0 <= i < 4 * |ws| :: bs[i] == ByteOf(ws[i / 4], i % 4)
  {
    seq(4 * |ws|, i requires 0 <= i < 4 * |ws| => ByteOf(ws[i / 4], i % 4))
  }

  function FromBytes(bs: seq<Byte>): Option<seq<Word>> {
    if |bs| % 4 != 0 then None
    else
      Some(seq(|bs| / 4, i requires 0 <= i < |bs| / 4 =>
        Join(bs[4 * i], bs[4 * i + 1], bs[4 * i + 2], bs[4 * i + 3])))
  }

  lemma BytesRoundTrip(ws: seq<Word>)
    ensures FromBytes(ToBytes(ws)) == Some(ws)
  {
    var vs := FromBytes(ToBytes(ws)).value;
    forall i | 0 <= i < |ws| ensures vs[i] == ws[i] { WordReadBack(ws, i); }
    assert vs == ws;
  }

  lemma WordReadBack(ws: seq<Word>, i: nat)
    requires i < |ws|
    ensures var bs := ToBytes(ws); Join(bs[4 * i], bs[4 * i + 1], bs[4 * i + 2], bs[4 * i + 3]) == ws[i]
  {
    WordInBytes(ws, i, 0);
    WordInBytes(ws, i, 1);
    WordInBytes(ws, i, 2);
    WordInBytes(ws, i, 3);
    SplitJoins(ws[i]);
  }

  lemma WordInBytes(ws: seq<Word>, i: nat, b: nat)
    requires i < |ws| && b < 4
    ensures ToBytes(ws)[4 * i + b] == ByteOf(ws[i], b)
  {
    assert (4 * i + b) / 4 == i && (4 * i + b) % 4 == b;
  }

  // ---- modules ----

  const MAGIC: Word := 0x0723_0203
  const VERSION: Word := 0x0001_0000
  const GENERATOR: Word := 0x474C_534C

  /** The sections of a module, one behind the other. */
  function Flat(sections: seq<seq<Inst>>): seq<Inst> {
    if sections == [] then [] else Flat(sections[..|sections| - 1]) + sections[|sections| - 1]
  }

  /** Five header words, and the sections. */
  function ModuleWords(bound: Word, sections: seq<seq<Inst>>): seq<Word>
    requires OpsFit(Flat(sections))
  {
    [MAGIC, VERSION, GENERATOR, bound, 0] + EncodeAll(Flat(sections))
  }

  /** Reads a module: its id bound and its instructions. */
  function ReadModule(gr: Grammar, bs: seq<Byte>): Option<(Word, seq<Inst>)> {
    match FromBytes(bs)
    case None => None
    case Some(ws) => ReadWords(gr, ws)
  }

  function ReadWords(gr: Grammar, ws: seq<Word>): Option<(Word, seq<Inst>)> {
    if |ws| < 5 || ws[0] != MAGIC || ws[1] != VERSION || ws[4] != 0 then None
    else WithBound(ws[3], Decode(gr, ws[5..]))
  }

  function WithBound(bound: Word, code: Option<seq<Inst>>): Option<(Word, seq<Inst>)> {
    if code.None? then None else Some((bound, code.value))
  }

  lemma HeaderRead(gr: Grammar, bound: Word, rest: seq<Word>)
    ensures ReadWords(gr, [MAGIC, VERSION, GENERATOR, bound, 0] + rest) == WithBound(bound, Decode(gr, rest))
  {
    assert ([MAGIC, VERSION, GENERATOR, bound, 0] + rest)[5..] == rest;
  }

  /** The first twenty bytes of a module: the magic number 0x07230203, version 1.0, the generator's "GLSL", the bound,
      and schema 0 (section 2.3 of the SPIR-V Specification), each low byte first. */
  lemma HeaderBytes(bound: Word, sections: seq<seq<Inst>>)
    requires OpsFit(Flat(sections))
    ensures
      ToBytes(ModuleWords(bound, sections))[..20] ==
      [0x03, 0x02, 0x23, 0x07] + ([0, 0, 1, 0] + ([0x4C, 0x53, 0x4C, 0x47] + (FourBytes(bound) + [0, 0, 0, 0])))
  {
    FiveFirst(MAGIC, VERSION, GENERATOR, bound, 0, EncodeAll(Flat(sections)));
    ConstantBytes();
  }

  lemma FiveFirst(a: Word, b: Word, c: Word, d: Word, e: Word, rest: seq<Word>)
    ensures ToBytes([a, b, c, d, e] + rest)[..20] == FourBytes(a) + (FourBytes(b) + (FourBytes(c) + (FourBytes(d) + FourBytes(e))))
  {
    var ws := [a, b, c, d, e] + rest;
    BytesPrefix(ws, 5);
    assert ws[..5] == [a, b, c, d, e];
    FiveWords(a, b, c, d, e);
  }

  function FourBytes(w: Word): (bs: seq<Byte>)
    ensures |bs| == 4 && Join(bs[0], bs[1], bs[2], bs[3]) == w
  {
    SplitJoins(w);
    [ByteOf(w, 0), ByteOf(w, 1), ByteOf(w, 2), ByteOf(w, 3)]
  }

  lemma ConstantBytes()
    ensures FourBytes(MAGIC) == [0x03, 0x02, 0x23, 0x07] && FourBytes(VERSION) == [0, 0, 1, 0]
    ensures FourBytes(GENERATOR) == [0x4C, 0x53, 0x4C, 0x47] && FourBytes(0) == [0, 0, 0, 0]
  {
  }

  lemma FiveWords(a: Word, b: Word, c: Word, d: Word, e: Word)
    ensures ToBytes([a, b, c, d, e]) == FourBytes(a) + (FourBytes(b) + (FourBytes(c) + (FourBytes(d) + FourBytes(e))))
  {
    FirstBytes(a, [b, c, d, e]);
    FirstBytes(b, [c, d, e]);
    FirstBytes(c, [d, e]);
    FirstBytes(d, [e]);
    FirstBytes(e, []);
    assert [a] + [b, c, d, e] == [a, b, c, d, e] && [b] + [c, d, e] == [b, c, d, e] && [c] + [d, e] == [c, d, e];
    assert [d] + [e] == [d, e] && [e] + [] == [e] && ToBytes([]) == [];
  }

  lemma FirstBytes(w: Word, ws: seq<Word>)
    ensures ToBytes([w] + ws) == FourBytes(w) + ToBytes(ws)
  {
    forall i | 0 <= i < 4 * |ws| + 4 ensures ToBytes([w] + ws)[i] == (FourBytes(w) + ToBytes(ws))[i] {
      if i >= 4 { assert (i - 4) / 4 == i / 4 - 1 && (i - 4) % 4 == i % 4; }
    }
  }

  lemma BytesPrefix(ws: seq<Word>, k: nat)
    requires k <= |ws|
    ensures ToBytes(ws)[..4 * k] == ToBytes(ws[..k])
  {
  }

  /** The shipped bytes read back as the id bound and the sections' instructions in order, exactly when every
      instruction is encodable. */
  lemma ModuleRoundTrip(gr: Grammar, bound: Word, sections: seq<seq<Inst>>)
    requires OpsFit(Flat(sections))
    ensures ReadModule(gr, ToBytes(ModuleWords(bound, sections))) == Some((bound, Flat(sections)))
       <==> AllEncodable(gr, Flat(sections))
  {
    BytesRoundTrip(ModuleWords(bound, sections));
    HeaderRead(gr, bound, EncodeAll(Flat(sections)));
    RoundTripExact(gr, Flat(sections));
  }

  // ---- the emitter's vectors ----

  lemma {:induction false} EncodeConcat(a: seq<Inst>, b: seq<Inst>)
    requires OpsFit(a) && OpsFit(b)
    ensures OpsFit(a + b) && EncodeAll(a + b) == EncodeAll(a) + EncodeAll(b)
    decreases a
  {
    if a == [] {
      assert a + b == b;
    } else {
      assert (a + b)[1..] == a[1..] + b && (a + b)[0] == a[0];
      EncodeConcat(a[1..], b);
      Regroup(Encode(a[0]), EncodeAll(a[1..]), EncodeAll(b));
    }
  }

  lemma Regroup(a: seq<Word>, b: seq<Word>, c: seq<Word>)
    ensures (a + b) + c == a + (b + c)
  {
  }

  lemma EncodeAppends(code: seq<Inst>, i: Inst)
    requires OpsFit(code) && i.op < 0x1_0000
    ensures OpsFit(code + [i])
    ensures EncodeAll(code + [i]) == EncodeAll(code) + Encode(i)
  {
    EncodeConcat(code, [i]);
    assert [i][1..] == [];
    assert Encode(i) + [] == Encode(i);
  }

  /** Word `w` of a packed string. */
  function PackedWord(s: seq<Byte>, w: nat): Word {
    Join(At(s, 4 * w), At(s, 4 * w + 1), At(s, 4 * w + 2), At(s, 4 * w + 3))
  }

  lemma PackedShift(s: seq<Byte>, w: nat)
    requires |s| >= 4 && w > 0
    ensures PackedWord(s[4..], w - 1) == PackedWord(s, w)
  {
    var i := 4 * (w - 1);
    assert At(s[4..], i) == At(s, i + 4) && At(s[4..], i + 1) == At(s, i + 5);
    assert At(s[4..], i + 2) == At(s, i + 6) && At(s[4..], i + 3) == At(s, i + 7);
  }

  lemma {:induction false} StringWordAt(s: seq<Byte>, w: nat)
    requires w < |StringWords(s)|
    ensures StringWords(s)[w] == PackedWord(s, w)
    decreases w
  {
    if w > 0 {
      StringWordAt(s[4..], w - 1);
      PackedShift(s, w);
    }
  }

  /** The header and the three parts of an instruction with a string, pushed one after the other. */
  lemma TextPushed(before: seq<Word>, op: nat, prefix: seq<Word>, str: seq<Byte>, suffix: seq<Word>)
    requires op < 0x1_0000
    ensures
      var packed := StringWords(str);
      var header := Header(1 + |prefix| + |packed| + |suffix|, op);
      before + [header] + prefix + packed + suffix == before + Encode(Text(op, prefix, str, suffix))
  {
  }

  /** A section that has grown by the words of an instruction. */
  lemma SectionGrows(before: seq<Word>, code: seq<Inst>, i: Inst, words: seq<Word>)
    requires OpsFit(code) && before == EncodeAll(code) && i.op < 0x1_0000 && words == before + Encode(i)
    ensures OpsFit(code + [i]) && words == EncodeAll(code + [i])
  {
    EncodeAppends(code, i);
  }

  /** A section of the module under construction. */
  class Section {
    var words: seq<Word>
    ghost var code: seq<Inst>

    ghost predicate Valid()
      reads this
    {
      OpsFit(code) && words == EncodeAll(code)
    }

    constructor ()
      ensures Valid() && code == [] && words == []
    {
      words, code := [], [];
    }

    method Extend(ws: seq<Word>)
      modifies `words
      ensures words == old(words) + ws
    {
      for i := 0 to |ws|
        invariant words == old(words) + ws[..i]
      {
        words := words + [ws[i]];
      }
    }

    method AppendOp(op: nat, operands: seq<Word>)
      requires Valid() && op < 0x1_0000
      modifies this
      ensures Valid() && code == old(code) + [Plain(op, operands)]
    {
      ghost var before := words;
      words := words + [Header(1 + |operands|, op)];
      Extend(operands);
      assert words == before + Encode(Plain(op, operands));
      SectionGrows(before, code, Plain(op, operands), words);
      code := code + [Plain(op, operands)];
    }

    /** OpName, OpString and, with interface ids after the name, OpEntryPoint. */
    method AppendOpStr(op: nat, prefix: seq<Word>, str: seq<Byte>, suffix: seq<Word>)
      requires Valid() && op < 0x1_0000
      modifies this
      ensures Valid() && code == old(code) + [Text(op, prefix, str, suffix)]
    {
      ghost var before := words;
      var packed := PackString(str);
      words := words + [Header(1 + |prefix| + |packed| + |suffix|, op)];
      Extend(prefix);
      Extend(packed);
      Extend(suffix);
      TextPushed(before, op, prefix, str, suffix);
      SectionGrows(before, code, Text(op, prefix, str, suffix), words);
      code := code + [Text(op, prefix, str, suffix)];
    }
  }

  /** packStringInto. */
  method PackString(s: seq<Byte>) returns (out: seq<Word>)
    ensures out == StringWords(s)
  {
    var totalWords := (|s| + 1 + 3) / 4;
    out := [];
    for w := 0 to totalWords
      invariant |out| == w && forall i | 0 <= i < w :: out[i] == StringWords(s)[i]
    {
      var v, weight := 0, 1;
      for b := 0 to 4
        invariant weight == if b == 0 then 1 else if b == 1 then 0x100 else if b == 2 then 0x1_0000 else if b == 3 then 0x100_0000 else 0x1_0000_0000
        invariant v == (if b > 0 then At(s, 4 * w) else 0) + (if b > 1 then 0x100 * At(s, 4 * w + 1) else 0)
                    + (if b > 2 then 0x1_0000 * At(s, 4 * w + 2) else 0) + (if b > 3 then 0x100_0000 * At(s, 4 * w + 3) else 0)
      {
        var i := w * 4 + b;
        var ch: Byte := if i < |s| then s[i] else 0;
        v := v + ch * weight;
        weight := weight * 0x100;
      }
      StringWordAt(s, w);
      out := out + [v];
    }
  }

  lemma BytesAppend(ws: seq<Word>, i: nat)
    requires i < |ws|
    ensures ToBytes(ws[..i + 1]) == ToBytes(ws[..i]) + [ByteOf(ws[i], 0), ByteOf(ws[i], 1), ByteOf(ws[i], 2), ByteOf(ws[i], 3)]
  {
    var a, b := ToBytes(ws[..i + 1]), ToBytes(ws[..i]) + [ByteOf(ws[i], 0), ByteOf(ws[i], 1), ByteOf(ws[i], 2), ByteOf(ws[i], 3)];
    forall k | 0 <= k < |a| ensures a[k] == b[k] {
      if k >= 4 * i { WordInBytes(ws[..i + 1], i, k - 4 * i); }
    }
  }

  /** The final repacking of the stream into bytes. */
  method StreamBytes(stream: seq<Word>) returns (bytes: array<Byte>)
    ensures bytes[..] == ToBytes(stream)
  {
    bytes := new Byte[|stream| * 4](_ => 0);
    for i := 0 to |stream|
      invariant bytes[..4 * i] == ToBytes(stream[..i])
    {
      var w := stream[i];
      ghost var before := bytes[..4 * i];
      bytes[i * 4 + 0] := ByteOf(w, 0);
      bytes[i * 4 + 1] := ByteOf(w, 1);
      bytes[i * 4 + 2] := ByteOf(w, 2);
      bytes[i * 4 + 3] := ByteOf(w, 3);
      assert bytes[..4 * i + 4] == before + [ByteOf(w, 0), ByteOf(w, 1), ByteOf(w, 2), ByteOf(w, 3)];
      BytesAppend(stream, i);
    }
    assert stream[..|stream|] == stream;
  }

  ghost function Codes(sections: seq<Section>): (r: seq<seq<Inst>>)
    reads sections
    ensures |r| == |sections| && forall k | 0 <= k < |sections| :: r[k] == sections[k].code
  {
    seq(|sections|, k requires 0 <= k < |sections| reads sections => sections[k].code)
  }

  lemma FlatNext(parts: seq<seq<Inst>>, i: nat)
    requires i < |parts|
    ensures Flat(parts[..i + 1]) == Flat(parts[..i]) + parts[i]
  {
    assert parts[..i + 1][..i] == parts[..i];
  }

  lemma SectionStitched(bound: Word, parts: seq<seq<Inst>>, i: nat)
    requires i < |parts| && OpsFit(Flat(parts[..i])) && OpsFit(parts[i])
    ensures OpsFit(Flat(parts[..i + 1]))
    ensures ModuleWords(bound, parts[..i + 1]) == ModuleWords(bound, parts[..i]) + EncodeAll(parts[i])
  {
    FlatNext(parts, i);
    EncodeConcat(Flat(parts[..i]), parts[i]);
    Regroup([MAGIC, VERSION, GENERATOR, bound, 0], EncodeAll(Flat(parts[..i])), EncodeAll(parts[i]));
  }

  /** The header, the sections stitched in their order, and the words as bytes. */
  method StitchModule(bound: Word, sections: seq<Section>) returns (bytes: array<Byte>)
    requires forall k | 0 <= k < |sections| :: sections[k].Valid()
    ensures OpsFit(Flat(Codes(sections))) && bytes[..] == ToBytes(ModuleWords(bound, Codes(sections)))
  {
    var stream := [MAGIC, VERSION, GENERATOR, bound, 0];
    ghost var parts := Codes(sections);
    for i := 0 to |sections|
      invariant OpsFit(Flat(parts[..i])) && stream == ModuleWords(bound, parts[..i])
    {
      stream := stream + sections[i].words;
      SectionStitched(bound, parts, i);
    }
    assert parts[..|sections|] == parts;
    bytes := StreamBytes(stream);
  }
}
