/** basE91: the encoder packs bytes into values of 13 or 14 bits, two characters a
    value; the decoder undoes it. Bytes arrive in any number of writes. */
module Base91 {
  import opened Wrappers
  import opened Bytes

  // ----- The alphabet -----

  /** The characters of the alphabet after the letters and digits. */
  const PUNCTUATION: string := "!#$%&()*+,./:;<=>?@[]^_`{|}~\""

  /** ENCTAB */
  function Enctab(d: nat): (c: Byte)
    requires d < 91
  {
    if d < 26 then d + 65
    else if d < 52 then d - 26 + 97
    else if d < 62 then d - 52 + 48
    else PUNCTUATION[d - 62] as int
  }

  /** An entry of DECTAB for a byte that is not in the alphabet. */
  const INV: nat := 91

  /** DECTAB */
  function Dectab(c: Byte): (d: nat)
    ensures d <= INV
  {
    if 65 <= c <= 90 then c - 65
    else if 97 <= c <= 122 then c - 97 + 26
    else if 48 <= c <= 57 then c - 48 + 52
    else match c
      case 33 => 62
      case 34 => 90
      case 35 => 63 case 36 => 64 case 37 => 65 case 38 => 66
      case 40 => 67 case 41 => 68 case 42 => 69 case 43 => 70 case 44 => 71
      case 46 => 72 case 47 => 73
      case 58 => 74 case 59 => 75 case 60 => 76 case 61 => 77 case 62 => 78 case 63 => 79 case 64 => 80
      case 91 => 81
      case 93 => 82 case 94 => 83 case 95 => 84 case 96 => 85
      case 123 => 86 case 124 => 87 case 125 => 88 case 126 => 89
      case _ => INV
  }

  /** The two tables are inverse to each other. */
  lemma TablesInverse(d: nat)
    requires d < 91
    ensures Dectab(Enctab(d)) == d
  {
  }

  lemma TablesInverseBack(c: Byte)
    requires Dectab(c) != INV
    ensures Enctab(Dectab(c)) == c
  {
  }

  // ----- Arithmetic -----

  function Pow2(n: nat): (p: nat)
    ensures p >= 1
  {
    if n == 0 then 1 else 2 * Pow2(n - 1)
  }

  lemma {:induction false} Pow2Add(a: nat, b: nat)
    ensures Pow2(a + b) == Pow2(a) * Pow2(b)
  {
    if a > 0 {
      Pow2Add(a - 1, b);
      assert Pow2(a + b) == 2 * Pow2(a + b - 1);
    }
  }

  lemma {:induction false} Pow2Monotone(a: nat, b: nat)
    requires a <= b
    ensures Pow2(a) <= Pow2(b)
  {
    if a < b { Pow2Monotone(a, b - 1); }
  }

  lemma Pow2Values()
    ensures Pow2(8) == 256 && Pow2(13) == 8192 && Pow2(14) == 16384
  {
    assert Pow2(4) == 16;
    Pow2Add(4, 4);
    Pow2Add(8, 4);
    assert Pow2(13) == 2 * Pow2(12);
    assert Pow2(14) == 2 * Pow2(13);
  }

  /** The source's `accumulator |= b << bits` adds, because the bits do not overlap. */
  lemma OrIsPlus(accumulator: bv64, b: bv64, bits: bv64)
    requires bits <= 13 && b < 256 && accumulator < (1 << bits)
    ensures accumulator | (b << bits) == accumulator + (b << bits)
  {
  }

  /** The number that bytes stand for, least significant first. */
  function Val(s: seq<Byte>): (v: nat) {
    if s == [] then 0 else s[0] + 256 * Val(s[1..])
  }

  lemma {:induction false} ValAppend(s: seq<Byte>, b: Byte)
    ensures Val(s + [b]) == Val(s) + b * Pow2(8 * |s|)
  {
    hide Pow2;
    Pow2Values();
    if s == [] {
      assert [b][1..] == [];
      Pow2Add(0, 8);
      Pow2Zero();
    } else {
      var p := Pow2(8 * |s[1..]|);
      ValAppend(s[1..], b);
      assert (s + [b])[1..] == s[1..] + [b];
      Pow2Add(8, 8 * |s[1..]|);
      Scale(b, p);
    }
  }

  lemma Pow2Zero()
    ensures Pow2(0) == 1
  {
  }

  lemma Scale(b: nat, p: nat)
    ensures 256 * (b * p) == b * (256 * p)
  {
  }

  /** And so does the decoder's `accumulator |= value << bits`, which needs 21 bits. */
  lemma OrIsPlusValue(accumulator: bv21, value: bv21, bits: bv21)
    requires bits < 8 && value < 8281 && accumulator < (1 << bits)
    ensures accumulator | (value << bits) == accumulator + (value << bits)
  {
    var shifted := value << bits;
    assert accumulator & shifted == 0;
    DisjointBits(accumulator, shifted);
  }

  lemma DisjointBits(a: bv21, b: bv21)
    requires a & b == 0
    ensures a | b == a + b
  {
  }

  lemma OrIsPlusByte(accumulator: bv8, value: bv8, bits: bv8)
    requires bits < 8 && accumulator < (1 << bits)
    ensures accumulator | (value << bits) == accumulator + (value << bits)
  {
  }

  // ----- The encoder -----

  /** Accumulated bits, and the characters written. */
  datatype Enc = Enc(acc: nat, bits: nat, out: seq<Byte>)

  /** Between bytes the encoder holds at most 13 bits. */
  predicate EncOk(st: Enc) {
    st.bits <= 13 && st.acc < Pow2(st.bits)
  }

  /** The two characters of a value. */
  function Chars(val: nat): (c: seq<Byte>)
    requires val < 91 * 91
    ensures |c| == 2
  {
    [Enctab(val % 91), Enctab(val / 91)]
  }

  function EncByte(st: Enc, b: Byte): Enc {
    var acc, bits := st.acc + b * Pow2(st.bits), st.bits + 8;
    if bits <= 13 then Enc(acc, bits, st.out)
    else if acc % 8192 > 88 then Enc(acc / 8192, bits - 13, st.out + Chars(acc % 8192))
    else
      WidthOf(acc);
      Enc(acc / 16384, bits - 14, st.out + Chars(acc % 16384))
  }

  lemma EncByteOk(st: Enc, b: Byte)
    requires EncOk(st)
    ensures EncOk(EncByte(st, b))
  {
    hide Pow2;
    var acc, bits := st.acc + b * Pow2(st.bits), st.bits + 8;
    Pow2Values();
    JoinedFits(st.acc, st.bits, b, 8);
    if bits > 13 {
      Pow2Add(bits - 13, 13);
      Pow2Add(bits - 14, 14);
      ShiftDown(acc, Pow2(bits - 13), 8192);
      ShiftDown(acc, Pow2(bits - 14), 16384);
    }
  }

  lemma ShiftDown(acc: nat, p: nat, unit: nat)
    requires unit > 0
    ensures acc < p * unit ==> acc / unit < p
  {
    if acc / unit >= p {
      assert acc == unit * (acc / unit) + acc % unit;
      assert unit * (acc / unit) >= unit * p;
    }
  }

  /** The encoder after some bytes. */
  function EncAll(st: Enc, bs: seq<Byte>): (r: Enc)
    requires EncOk(st)
    ensures EncOk(r)
  {
    if bs == [] then st
    else
      var before := EncAll(st, bs[..|bs| - 1]);
      EncByteOk(before, bs[|bs| - 1]);
      EncByte(before, bs[|bs| - 1])
  }

  /** What a flush writes for the bits still held. */
  function Tail(st: Enc): (c: seq<Byte>)
    requires EncOk(st)
  {
    Pow2Values();
    Pow2Monotone(st.bits, 13);
    if st.bits == 0 then []
    else if st.bits > 7 || st.acc > 90 then Chars(st.acc)
    else [Enctab(st.acc % 91)]
  }

  /** The whole encoding of some bytes. */
  function Encoded(bs: seq<Byte>): seq<Byte> {
    var st := EncAll(Enc(0, 0, []), bs);
    st.out + Tail(st)
  }

  // ----- The decoder -----

  datatype Dec = Dec(acc: nat, bits: nat, value: Option<nat>, out: seq<Byte>)

  /** Between characters the decoder holds less than a byte, and perhaps a first
      character. */
  predicate DecOk(st: Dec) {
    st.bits < 8 && st.acc < Pow2(st.bits) && (st.value.Some? ==> st.value.value < 91)
  }

  /** How many bits a value stands for. */
  function Width(val: nat): (w: nat)
    ensures w == 13 || w == 14
  {
    if val % 8192 > 88 then 13 else 14
  }

  /** Write out whole bytes, at least one. */
  function Drain(acc: nat, bits: nat, out: seq<Byte>): Dec
    requires bits >= 8
  {
    var next := out + [acc % 256];
    if bits - 8 < 8 then Dec(acc / 256, bits - 8, None, next) else Drain(acc / 256, bits - 8, next)
  }

  function DecByte(st: Dec, c: Byte): Dec {
    var d := Dectab(c);
    if d == INV then st
    else match st.value
      case Some(v) =>
        var val := v + d * 91;
        Drain(st.acc + val * Pow2(st.bits), st.bits + Width(val), st.out)
      case None => st.(value := Some(d))
  }

  function DecAll(st: Dec, cs: seq<Byte>): Dec {
    if cs == [] then st else DecByte(DecAll(st, cs[..|cs| - 1]), cs[|cs| - 1])
  }

  /** What a flush writes for a first character without a second. */
  function Rest(st: Dec): seq<Byte> {
    match st.value
    case Some(v) => [(st.acc + v * Pow2(st.bits)) % 256]
    case None => []
  }

  /** The whole decoding of some characters. */
  function Decoded(cs: seq<Byte>): seq<Byte> {
    var st := DecAll(Dec(0, 0, None, []), cs);
    st.out + Rest(st)
  }

  lemma {:induction false} DrainOk(acc: nat, bits: nat, out: seq<Byte>)
    requires bits >= 8 && acc < Pow2(bits)
    ensures DecOk(Drain(acc, bits, out))
  {
    hide Pow2;
    Pow2Add(bits - 8, 8);
    Pow2Values();
    ShiftDown(acc, Pow2(bits - 8), 256);
    if bits - 8 >= 8 { DrainOk(acc / 256, bits - 8, out + [acc % 256]); }
  }

  lemma DectabBelow(c: Byte)
    ensures Dectab(c) != INV ==> Dectab(c) <= 90
  {
  }

  lemma ValueFits(val: nat)
    requires val < 91 * 91
    ensures val < Pow2(Width(val))
  {
    Pow2Values();
  }

  lemma DecByteOk(st: Dec, c: Byte)
    requires DecOk(st)
    ensures DecOk(DecByte(st, c))
  {
    hide Pow2, Drain, Dectab, Width;
    var d := Dectab(c);
    if d != INV && st.value.Some? {
      var val := st.value.value + d * 91;
      Pow2Values();
      DectabBelow(c);
      ValueFits(val);
      JoinedFits(st.acc, st.bits, val, Width(val));
      DrainOk(st.acc + val * Pow2(st.bits), st.bits + Width(val), st.out);
    }
  }

  /** Whatever characters it is fed, the decoder holds less than a byte between
      values, so its accumulator never needs more than 21 bits. */
  lemma {:induction false} DecAllOk(st: Dec, cs: seq<Byte>)
    requires DecOk(st)
    ensures DecOk(DecAll(st, cs))
  {
    if cs != [] {
      DecAllOk(st, cs[..|cs| - 1]);
      DecByteOk(DecAll(st, cs[..|cs| - 1]), cs[|cs| - 1]);
    }
  }

  // ----- Any chunking -----

  lemma {:induction false} EncAllSplit(st: Enc, a: seq<Byte>, b: seq<Byte>)
    requires EncOk(st)
    ensures EncAll(st, a + b) == EncAll(EncAll(st, a), b)
  {
    if b == [] {
      assert a + b == a;
    } else {
      assert (a + b)[..|a + b| - 1] == a + b[..|b| - 1];
      EncAllSplit(st, a, b[..|b| - 1]);
    }
  }

  lemma {:induction false} DecAllSplit(st: Dec, a: seq<Byte>, b: seq<Byte>)
    ensures DecAll(st, a + b) == DecAll(DecAll(st, a), b)
  {
    if b == [] {
      assert a + b == a;
    } else {
      assert (a + b)[..|a + b| - 1] == a + b[..|b| - 1];
      DecAllSplit(st, a, b[..|b| - 1]);
    }
  }

  function Joined(chunks: seq<seq<Byte>>): seq<Byte> {
    if chunks == [] then [] else Joined(chunks[..|chunks| - 1]) + chunks[|chunks| - 1]
  }

  // ----- Round trip -----

  /** Dropping one byte from the bottom. */
  lemma TakeByte(acc: nat, bits: nat, rest: nat)
    requires bits >= 8
    ensures (acc + Pow2(bits) * rest) % 256 == acc % 256
    ensures (acc + Pow2(bits) * rest) / 256 == acc / 256 + Pow2(bits - 8) * rest
  {
    Pow2Add(bits - 8, 8);
    Pow2Values();
    var q := Pow2(bits - 8) * rest;
    assert Pow2(bits) * rest == 256 * q;
    DivMod(acc, q);
  }

  lemma DivMod(acc: nat, q: nat)
    ensures (acc + 256 * q) % 256 == acc % 256
    ensures (acc + 256 * q) / 256 == acc / 256 + q
  {
  }

  lemma ValFirst(s: seq<Byte>)
    requires s != []
    ensures Val(s) % 256 == s[0] && Val(s) / 256 == Val(s[1..])
  {
  }

  /** The decoder has written `bs[..|out|]`; its bits, then `rest`, are the bytes
      after those, up to the `n`-th. */
  predicate Pending(bs: seq<Byte>, n: nat, out: seq<Byte>, acc: nat, bits: nat, rest: nat, restBits: nat) {
    && |out| <= n <= |bs|
    && out == bs[..|out|]
    && bits + restBits == 8 * (n - |out|)
    && acc < Pow2(bits)
    && acc + Pow2(bits) * rest == Val(bs[|out|..n])
  }

  lemma PendingByte(bs: seq<Byte>, n: nat, out: seq<Byte>, acc: nat, bits: nat, rest: nat, restBits: nat)
    requires Pending(bs, n, out, acc, bits, rest, restBits) && bits >= 8
    ensures Pending(bs, n, out + [acc % 256], acc / 256, bits - 8, rest, restBits)
  {
    var m := |out|;
    var s := bs[m..n];
    TakeByte(acc, bits, rest);
    ValFirst(s);
    assert s[1..] == bs[m + 1..n];
    assert bs[..m + 1] == bs[..m] + [bs[m]];
    Pow2Add(bits - 8, 8);
    Pow2Values();
    ShiftDown(acc, Pow2(bits - 8), 256);
  }

  lemma {:induction false} DrainPending(bs: seq<Byte>, n: nat, out: seq<Byte>, acc: nat, bits: nat, rest: nat, restBits: nat)
    requires Pending(bs, n, out, acc, bits, rest, restBits) && bits >= 8
    ensures var d := Drain(acc, bits, out);
      d.value == None && d.bits < 8 && Pending(bs, n, d.out, d.acc, d.bits, rest, restBits)
    decreases bits
  {
    hide Pending;
    PendingByte(bs, n, out, acc, bits, rest, restBits);
    if bits - 8 >= 8 { DrainPending(bs, n, out + [acc % 256], acc / 256, bits - 8, rest, restBits); }
  }

  /** The decoder keeps up with the encoder: between them they hold the bytes not
      yet written. */
  predicate InStep(bs: seq<Byte>, n: nat, e: Enc, d: Dec) {
    d.value == None && d.bits < 8 && EncOk(e) && Pending(bs, n, d.out, d.acc, d.bits, e.acc, e.bits)
  }

  lemma Distribute(p: nat, w: nat, q: nat, r: nat)
    ensures p * (w * q + r) == r * p + (p * w) * q
  {
    calc {
      p * (w * q + r);
      p * (w * q) + p * r;
      { assert p * (w * q) == (p * w) * q; }
      (p * w) * q + r * p;
    }
  }

  lemma Fits(acc: nat, p: nat, val: nat, w: nat)
    requires acc < p && val < w
    ensures acc + val * p < p * w
  {
    MulMonotone(val + 1, w, p);
    assert (val + 1) * p == val * p + p;
  }

  lemma MulMonotone(a: nat, b: nat, p: nat)
    requires a <= b
    ensures a * p <= b * p
  {
  }

  /** Taking `val`, `width` bits, from one end and adding it at the other. */
  lemma Handover(acc: nat, bits: nat, val: nat, left: nat, width: nat)
    ensures acc + Pow2(bits) * (Pow2(width) * left + val) == (acc + val * Pow2(bits)) + Pow2(bits + width) * left
  {
    hide Pow2;
    Pow2Add(bits, width);
    Distribute(Pow2(bits), Pow2(width), left, val);
  }

  lemma Divided(from: nat, w: nat)
    requires w > 0
    ensures from == w * (from / w) + from % w
  {
  }

  lemma JoinedFits(acc: nat, bits: nat, val: nat, width: nat)
    requires acc < Pow2(bits) && val < Pow2(width)
    ensures acc + val * Pow2(bits) < Pow2(bits + width)
  {
    hide Pow2;
    Pow2Add(bits, width);
    Fits(acc, Pow2(bits), val, Pow2(width));
  }

  /** One more byte into the accumulator. */
  lemma PendingMore(bs: seq<Byte>, n: nat, out: seq<Byte>, acc: nat, bits: nat, rest: nat, restBits: nat)
    requires Pending(bs, n, out, acc, bits, rest, restBits) && n < |bs|
    ensures Pending(bs, n + 1, out, acc, bits, rest + bs[n] * Pow2(restBits), restBits + 8)
  {
    var m, b := |out|, bs[n];
    assert bs[m..n + 1] == bs[m..n] + [b];
    ValAppend(bs[m..n], b);
    Pow2Add(bits, restBits);
    Distribute2(Pow2(bits), rest, b, Pow2(restBits));
  }

  lemma Distribute2(p: nat, rest: nat, b: nat, q: nat)
    ensures p * (rest + b * q) == p * rest + b * (p * q)
  {
    calc {
      p * (rest + b * q);
      p * rest + p * (b * q);
      { assert p * (b * q) == b * (p * q); }
      p * rest + b * (p * q);
    }
  }

  lemma DecTwo(st: Dec, c0: Byte, c1: Byte)
    ensures DecAll(st, [c0, c1]) == DecByte(DecByte(st, c0), c1)
  {
    hide DecByte;
    assert [c0, c1][..1] == [c0] && [c0][..0] == [];
    assert DecAll(st, [c0]) == DecByte(DecAll(st, []), c0);
  }

  /** The two characters of a value hand its bits over. */
  lemma DecChars(st: Dec, val: nat)
    requires val < 91 * 91 && st.value == None
    ensures DecAll(st, Chars(val)) == Drain(st.acc + val * Pow2(st.bits), st.bits + Width(val), st.out)
  {
    hide Drain, DecAll, Enctab, Dectab, Pow2;
    DecTwo(st, Enctab(val % 91), Enctab(val / 91));
    TablesInverse(val % 91);
    TablesInverse(val / 91);
    Divided(val, 91);
  }

  lemma MovePending(bs: seq<Byte>, n: nat, out: seq<Byte>, acc: nat, bits: nat, fromBits: nat, width: nat, val: nat, left: nat)
    requires Pending(bs, n, out, acc, bits, Pow2(width) * left + val, fromBits) && width <= fromBits
    requires val < Pow2(width)
    ensures Pending(bs, n, out, acc + val * Pow2(bits), bits + width, left, fromBits - width)
  {
    hide Pow2, Val;
    Handover(acc, bits, val, left, width);
    JoinedFits(acc, bits, val, width);
  }

  /** A value of `width` bits moves from the encoder to the decoder. */
  lemma MoveValue(bs: seq<Byte>, n: nat, d: Dec, fromBits: nat, width: nat, val: nat, left: nat)
    requires d.value == None && d.bits < 8
    requires Pending(bs, n, d.out, d.acc, d.bits, Pow2(width) * left + val, fromBits) && width <= fromBits
    requires val < 91 * 91 && val < Pow2(width) && Width(val) == width
    ensures var after := DecAll(d, Chars(val));
      && after.value == None && after.bits < 8
      && Pending(bs, n, after.out, after.acc, after.bits, left, fromBits - width)
  {
    hide Pow2, Pending, Drain, DecAll, Chars, Width;
    DecChars(d, val);
    MovePending(bs, n, d.out, d.acc, d.bits, fromBits, width, val, left);
    WidthSize(val);
    DrainPending(bs, n, d.out, d.acc + val * Pow2(d.bits), d.bits + width, left, fromBits - width);
  }

  lemma WidthSize(val: nat)
    ensures Width(val) >= 8
  {
  }

  lemma StepInStep(bs: seq<Byte>, n: nat, e: Enc, d: Dec)
    requires n < |bs| && InStep(bs, n, e, d)
    ensures var next := EncByte(e, bs[n]);
      |e.out| <= |next.out| && next.out[..|e.out|] == e.out && InStep(bs, n + 1, next, DecAll(d, next.out[|e.out|..]))
  {
    hide Pending, Drain, Width, Pow2, DecAll, Chars, Val;
    EncByteOk(e, bs[n]);
    PendingMore(bs, n, d.out, d.acc, d.bits, e.acc, e.bits);
    var acc, bits := e.acc + bs[n] * Pow2(e.bits), e.bits + 8;
    var next := EncByte(e, bs[n]);
    Pow2Values();
    WidthOf(acc);
    if bits <= 13 {
      assert next.out[|e.out|..] == [];
      DecNone(d);
    } else if acc % 8192 > 88 {
      Divided(acc, 8192);
      MoveValue(bs, n + 1, d, bits, 13, acc % 8192, acc / 8192);
      assert next.out[|e.out|..] == Chars(acc % 8192);
    } else {
      Divided(acc, 16384);
      MoveValue(bs, n + 1, d, bits, 14, acc % 16384, acc / 16384);
      assert next.out[|e.out|..] == Chars(acc % 16384);
    }
  }

  lemma DecNone(d: Dec)
    ensures DecAll(d, []) == d
  {
  }

  /** The decoder finds the width the encoder chose. */
  lemma WidthOf(acc: nat)
    ensures acc % 8192 > 88 ==> Width(acc % 8192) == 13
    ensures acc % 8192 <= 88 ==> Width(acc % 16384) == 14 && acc % 16384 <= 8192 + 88
  {
    assert acc % 16384 == acc % 8192 || acc % 16384 == 8192 + acc % 8192;
  }

  lemma {:induction false} AllInStep(bs: seq<Byte>, n: nat)
    requires n <= |bs|
    ensures var e := EncAll(Enc(0, 0, []), bs[..n]);
      InStep(bs, n, e, DecAll(Dec(0, 0, None, []), e.out))
  {
    hide InStep, EncByte, DecByte;
    if n == 0 {
      assert bs[..0] == [];
      StartInStep(bs);
    } else {
      AllInStep(bs, n - 1);
      assert bs[..n][..n - 1] == bs[..n - 1];
      var e := EncAll(Enc(0, 0, []), bs[..n - 1]);
      var next := EncByte(e, bs[n - 1]);
      StepInStep(bs, n - 1, e, DecAll(Dec(0, 0, None, []), e.out));
      assert next.out == e.out + next.out[|e.out|..];
      DecAllSplit(Dec(0, 0, None, []), e.out, next.out[|e.out|..]);
    }
  }

  lemma StartInStep(bs: seq<Byte>)
    ensures InStep(bs, 0, Enc(0, 0, []), Dec(0, 0, None, []))
  {
    assert bs[0..0] == [];
  }

  /** Draining the last one or two bytes. */
  lemma DrainLast(bs: seq<Byte>, out: seq<Byte>, acc: nat, bits: nat)
    requires |out| < |bs| && out == bs[..|out|]
    requires acc == Val(bs[|out|..])
    requires var k := |bs| - |out|; k <= 2 && 8 * k <= bits < 8 * (k + 1)
    ensures Drain(acc, bits, out).out == bs && Drain(acc, bits, out).value == None
  {
    var m := |out|;
    var s := bs[m..];
    ValFirst(s);
    assert bs[..m + 1] == bs[..m] + [bs[m]];
    if |s| == 2 {
      assert s[1..] == bs[m + 1..];
      ValFirst(s[1..]);
      assert bs == bs[..m + 1] + [bs[m + 1]];
    } else {
      assert bs[..m + 1] == bs;
    }
  }

  /** The last characters, with the bits the decoder still holds, are the last bytes. */
  lemma TailDecodes(bs: seq<Byte>, e: Enc, d: Dec)
    requires InStep(bs, |bs|, e, d)
    ensures var after := DecAll(d, Tail(e)); after.out + Rest(after) == bs
  {
    hide Val, Drain, DecAll, Width, Pow2, Enctab;
    Pow2Values();
    var m := |d.out|;
    assert bs[m..|bs|] == bs[m..];
    TailSize(e);
    if e.bits == 0 {
      assert bs[..m] == bs;
      DecNone(d);
    } else if e.bits > 7 || e.acc > 90 {
      DecChars(d, e.acc);
      WidthSmall(e.acc);
      MulCommutes(e.acc, Pow2(d.bits));
      DrainLast(bs, d.out, d.acc + e.acc * Pow2(d.bits), d.bits + Width(e.acc));
    } else {
      LastCharacter(bs, e, d);
    }
  }

  lemma MulCommutes(a: nat, b: nat)
    ensures a * b == b * a
  {
  }

  lemma WidthSmall(val: nat)
    ensures Width(val) in {13, 14}
    ensures 90 < val < 128 ==> Width(val) == 13
  {
  }

  /** What is left when more than 90 fits in seven bits or fewer. */
  lemma TailSize(e: Enc)
    requires EncOk(e)
    ensures e.acc < 8192
    ensures e.bits <= 7 ==> e.acc < 128
    ensures e.bits <= 6 ==> e.acc < 64
  {
    Pow2Values();
    Pow2Monotone(e.bits, 13);
    if e.bits <= 7 { Pow2Monotone(e.bits, 7); assert Pow2(8) == 2 * Pow2(7); }
    if e.bits <= 6 { Pow2Monotone(e.bits, 6); assert Pow2(7) == 2 * Pow2(6); }
  }

  /** A single last character is the high part of the last byte. */
  lemma LastCharacter(bs: seq<Byte>, e: Enc, d: Dec)
    requires InStep(bs, |bs|, e, d)
    requires 0 < e.bits <= 7 && e.acc <= 90
    ensures var after := DecAll(d, [Enctab(e.acc)]); after.out + Rest(after) == bs
  {
    hide Pow2, Enctab, Dectab;
    var m := |d.out|;
    assert [Enctab(e.acc)][..0] == [];
    TablesInverse(e.acc);
    var s := bs[m..|bs|];
    ValFirst(s);
    assert s[1..] == [];
    MulCommutes(e.acc, Pow2(d.bits));
    assert bs == bs[..m] + [bs[m]];
  }

  /** decode(encode(b)) = b, for every byte string. */
  lemma RoundTrip(bs: seq<Byte>)
    ensures Decoded(Encoded(bs)) == bs
  {
    hide InStep;
    var e := EncAll(Enc(0, 0, []), bs);
    assert bs[..|bs|] == bs;
    AllInStep(bs, |bs|);
    TailDecodes(bs, e, DecAll(Dec(0, 0, None, []), e.out));
    DecAllSplit(Dec(0, 0, None, []), e.out, Tail(e));
  }

  // ----- Bytes that are not in the alphabet -----

  function Alphabetic(cs: seq<Byte>): (r: seq<Byte>) {
    if cs == [] then []
    else Alphabetic(cs[..|cs| - 1]) + if Dectab(cs[|cs| - 1]) == INV then [] else [cs[|cs| - 1]]
  }

  lemma {:induction false} SkipsOthers(st: Dec, cs: seq<Byte>)
    ensures DecAll(st, cs) == DecAll(st, Alphabetic(cs))
  {
    hide DecByte, Dectab;
    if cs != [] {
      var init, last := cs[..|cs| - 1], cs[|cs| - 1];
      SkipsOthers(st, init);
      if Dectab(last) != INV {
        assert (Alphabetic(init) + [last])[..|Alphabetic(init)|] == Alphabetic(init);
      } else {
        SkipOne(DecAll(st, init), last);
        assert Alphabetic(cs) == Alphabetic(init);
      }
    }
  }

  lemma SkipOne(st: Dec, c: Byte)
    requires Dectab(c) == INV
    ensures DecByte(st, c) == st
  {
  }

  /** Line breaks and other foreign bytes anywhere in the text change nothing. */
  lemma ForeignBytesIgnored(bs: seq<Byte>, cs: seq<Byte>)
    requires Alphabetic(cs) == Alphabetic(Encoded(bs))
    ensures Decoded(cs) == bs
  {
    hide Alphabetic, Encoded, DecAll;
    SkipsOthers(Dec(0, 0, None, []), cs);
    SkipsOthers(Dec(0, 0, None, []), Encoded(bs));
    RoundTrip(bs);
  }

  // ----- Size -----

  /** The characters written so far account for the bits taken from the bytes. */
  ghost predicate Accounted(n: nat, e: Enc) {
    && EncOk(e)
    && |e.out| % 2 == 0
    && 13 * (|e.out| / 2) <= 8 * n - e.bits <= 14 * (|e.out| / 2)
  }

  lemma {:induction false} AllAccounted(bs: seq<Byte>)
    ensures Accounted(|bs|, EncAll(Enc(0, 0, []), bs))
  {
    hide Accounted, EncOk, EncByte;
    EncStartOk();
    if bs == [] {
      StartAccounted();
    } else {
      AllAccounted(bs[..|bs| - 1]);
      AccountByte(|bs| - 1, EncAll(Enc(0, 0, []), bs[..|bs| - 1]), bs[|bs| - 1]);
    }
  }

  lemma StartAccounted()
    ensures Accounted(0, Enc(0, 0, []))
  {
  }

  lemma AccountByte(n: nat, e: Enc, b: Byte)
    requires Accounted(n, e)
    ensures Accounted(n + 1, EncByte(e, b))
  {
    hide EncOk, Pow2, Chars;
    EncByteOk(e, b);
    var next := EncByte(e, b);
    assert |next.out| == |e.out| || |next.out| == |e.out| + 2;
  }

  /** The overhead is at most 23% and at least 14%, a last value aside: for n bytes
      the L characters satisfy 8n <= 7L and 13L <= 16n + 12. */
  lemma SizeBounds(bs: seq<Byte>)
    ensures var l := |Encoded(bs)|; 8 * |bs| <= 7 * l && 13 * l <= 16 * |bs| + 12
  {
    hide Chars, Enctab;
    AllAccounted(bs);
    TailSize(EncAll(Enc(0, 0, []), bs));
  }

  // ----- The writers -----

  /** Where encoded and decoded bytes go. It may take only so many bytes, and may fail to
      flush. */
  class Sink {
    var data: seq<Byte>
    var room: Option<nat>
    const flushes: bool

    constructor (room: Option<nat>, flushes: bool)
      ensures data == [] && this.room == room && this.flushes == flushes
    {
      data := [];
      this.room := room;
      this.flushes := flushes;
    }

    /** Whether nothing written here can fail. */
    predicate Reliable()
      reads this
    {
      room == None && flushes
    }

    /** `write_all`: all of the bytes, or an error after some of them. */
    method WriteAll(buf: seq<Byte>) returns (ok: bool)
      modifies this
      ensures ok ==> data == old(data) + buf
      ensures !ok ==> old(data) <= data <= old(data) + buf && |buf| > 0
      ensures old(room) == None ==> ok && room == None
    {
      if room.None? {
        data := data + buf;
        return true;
      }
      if |buf| <= room.value {
        data, room := data + buf, Some(room.value - |buf|);
        return true;
      }
      data, room := data + buf[..room.value], Some(0);
      return false;
    }

    method Flush() returns (ok: bool)
      ensures ok == flushes
    {
      ok := flushes;
    }
  }

  /** What has been written stays written. */
  lemma {:induction false} EncAllGrows(st: Enc, bs: seq<Byte>, n: nat)
    requires EncOk(st) && n <= |bs|
    ensures EncAll(st, bs[..n]).out <= EncAll(st, bs).out
    decreases |bs| - n
  {
    hide EncOk, Pow2, Chars;
    if n == |bs| {
      assert bs[..n] == bs;
    } else {
      EncAllGrows(st, bs, n + 1);
      assert bs[..n + 1][..n] == bs[..n];
    }
  }

  lemma {:induction false} DrainGrows(acc: nat, bits: nat, out: seq<Byte>)
    requires bits >= 8
    ensures out <= Drain(acc, bits, out).out
  {
    if bits - 8 >= 8 { DrainGrows(acc / 256, bits - 8, out + [acc % 256]); }
  }

  lemma {:induction false} DecAllGrows(st: Dec, cs: seq<Byte>, n: nat)
    requires n <= |cs|
    ensures DecAll(st, cs[..n]).out <= DecAll(st, cs).out
    decreases |cs| - n
  {
    hide DecByte;
    if n == |cs| {
      assert cs[..n] == cs;
    } else {
      DecAllGrows(st, cs, n + 1);
      assert cs[..n + 1][..n] == cs[..n];
      DecByteGrows(DecAll(st, cs[..n]), cs[n]);
    }
  }

  lemma DecByteGrows(st: Dec, c: Byte)
    ensures st.out <= DecByte(st, c).out
  {
    hide Drain, Dectab;
    if Dectab(c) != INV && st.value.Some? {
      var val := st.value.value + Dectab(c) * 91;
      DrainGrows(st.acc + val * Pow2(st.bits), st.bits + Width(val), st.out);
    }
  }

  class Base91Encoder {
    const writer: Sink
    var accumulator: nat
    var bits: nat

    constructor (writer: Sink)
      ensures this.writer == writer && accumulator == 0 && bits == 0
    {
      this.writer := writer;
      accumulator := 0;
      bits := 0;
    }

    /** The encoder and everything it has written. */
    ghost function State(): Enc
      reads this, writer
    {
      Enc(accumulator, bits, writer.data)
    }

    /** The bytes encoded, or an error of the writer: then it holds a beginning of what
        encoding them writes. */
    method Write(buf: seq<Byte>) returns (n: Option<nat>)
      requires EncOk(State())
      modifies this, writer
      ensures EncOk(State())
      ensures n.Some? ==> n.value == |buf| && State() == EncAll(old(State()), buf)
      ensures n.None? ==> old(writer.data) <= writer.data <= EncAll(old(State()), buf).out
      ensures old(writer.room) == None ==> n.Some? && writer.room == None
    {
      hide EncOk, Pow2, Chars, EncByte;
      for k := 0 to |buf|
        invariant EncOk(State()) && State() == EncAll(old(State()), buf[..k])
        invariant old(writer.room) == None ==> writer.room == None
      {
        assert buf[..k + 1][..k] == buf[..k];
        EncAllGrows(old(State()), buf, 0);
        EncAllGrows(old(State()), buf, k);
        EncAllGrows(old(State()), buf, k + 1);
        EncStarts(old(State()), buf, k);
        var ok := WriteByte(buf[k]);
        if !ok { return None; }
      }
      assert buf[..|buf|] == buf;
      n := Some(|buf|);
    }

    /** The body of the loop in `write`. */
    method WriteByte(b: Byte) returns (ok: bool)
      requires EncOk(State())
      modifies this, writer
      ensures EncOk(State())
      ensures ok ==> State() == EncByte(old(State()), b)
      ensures !ok ==> old(writer.data) <= writer.data <= EncByte(old(State()), b).out
      ensures old(writer.room) == None ==> ok && writer.room == None
    {
      hide EncOk, Pow2, Enctab, Width;
      EncByteOk(State(), b);
      ghost var next := EncByte(State(), b);
      accumulator := accumulator + b * Pow2(bits);
      bits := bits + 8;
      WidthOf(accumulator);
      ok := true;
      if bits > 13 {
        var val := accumulator % 8192;
        if val > 88 {
          accumulator := accumulator / 8192;
          bits := bits - 13;
        } else {
          // a small value has room for one more bit
          val := accumulator % 16384;
          accumulator := accumulator / 16384;
          bits := bits - 14;
        }
        ok := writer.WriteAll([Enctab(val % 91), Enctab(val / 91)]);
      }
      SameBits(next, State());
    }

    /** The held bits written, or an error: then some of their characters may be missing. */
    method Flush() returns (ok: bool)
      requires EncOk(State())
      modifies this, writer
      ensures ok ==> writer.data == old(writer.data) + Tail(old(State())) && accumulator == 0 && bits == 0
      ensures !ok ==> old(writer.data) <= writer.data <= old(writer.data) + Tail(old(State()))
      ensures old(writer.Reliable()) ==> ok
    {
      TailSize(State());
      if bits > 0 {
        var val := accumulator;
        if bits > 7 || accumulator > 90 {
          ok := writer.WriteAll([Enctab(val % 91), Enctab(val / 91)]);
        } else {
          ok := writer.WriteAll([Enctab(val % 91)]);
        }
        if !ok { return; }
      }
      bits := 0;
      accumulator := 0;
      ok := writer.Flush();
    }
  }

  lemma SameBits(a: Enc, b: Enc)
    requires EncOk(a) && a.acc == b.acc && a.bits == b.bits
    ensures EncOk(b)
  {
  }

  lemma EncStarts(st: Enc, bs: seq<Byte>, n: nat)
    requires EncOk(st) && n <= |bs|
    ensures st.out <= EncAll(st, bs[..n]).out
  {
    hide EncOk, EncByte;
    EncAllGrows(st, bs[..n], 0);
    assert bs[..n][..0] == [];
  }

  lemma DecStarts(st: Dec, cs: seq<Byte>, n: nat)
    requires n <= |cs|
    ensures st.out <= DecAll(st, cs[..n]).out
  {
    hide DecByte;
    DecAllGrows(st, cs[..n], 0);
    assert cs[..n][..0] == [];
  }

  class Base91Decoder {
    const writer: Sink
    var accumulator: nat
    var bits: nat
    var value: Option<nat>

    constructor (writer: Sink)
      ensures this.writer == writer && accumulator == 0 && bits == 0 && value == None
    {
      this.writer := writer;
      accumulator := 0;
      bits := 0;
      value := None;
    }

    ghost function State(): Dec
      reads this, writer
    {
      Dec(accumulator, bits, value, writer.data)
    }

    /** The characters decoded, or an error of the writer: then it holds a beginning of
        what decoding them writes. */
    method Write(buf: seq<Byte>) returns (n: Option<nat>)
      modifies this, writer
      ensures n.Some? ==> n.value == |buf| && State() == DecAll(old(State()), buf)
      ensures n.None? ==> old(writer.data) <= writer.data <= DecAll(old(State()), buf).out
      ensures old(writer.room) == None ==> n.Some? && writer.room == None
    {
      hide DecByte;
      for k := 0 to |buf|
        invariant State() == DecAll(old(State()), buf[..k])
        invariant old(writer.room) == None ==> writer.room == None
      {
        assert buf[..k + 1][..k] == buf[..k];
        DecAllGrows(old(State()), buf, k + 1);
        DecStarts(old(State()), buf, k);
        var ok := WriteByte(buf[k]);
        if !ok { return None; }
      }
      assert buf[..|buf|] == buf;
      n := Some(|buf|);
    }

    /** The body of the loop in `write`. */
    method WriteByte(b: Byte) returns (ok: bool)
      modifies this, writer
      ensures ok ==> State() == DecByte(old(State()), b)
      ensures !ok ==> old(writer.data) <= writer.data <= DecByte(old(State()), b).out
      ensures old(writer.room) == None ==> ok && writer.room == None
    {
      var d := Dectab(b);
      if d == INV {
        return true;
      }
      if value.Some? {
        var val := value.value + d * 91;
        value := None;
        accumulator := accumulator + val * Pow2(bits);
        bits := bits + if val % 8192 > 88 then 13 else 14;
        ok := WriteBytes();
      } else {
        value := Some(d);
        ok := true;
      }
    }

    /** The inner loop: write out whole bytes, at least one. */
    method WriteBytes() returns (ok: bool)
      requires bits >= 8 && value == None
      modifies this, writer
      ensures ok ==> State() == old(Drain(accumulator, bits, writer.data))
      ensures !ok ==> old(writer.data) <= writer.data <= old(Drain(accumulator, bits, writer.data)).out
      ensures old(writer.room) == None ==> ok && writer.room == None
    {
      ghost var result, start := Drain(accumulator, bits, writer.data), writer.data;
      while true
        invariant value == None && bits >= 8 && start <= writer.data
        invariant result == Drain(accumulator, bits, writer.data)
        invariant old(writer.room) == None ==> writer.room == None
        decreases bits
      {
        DrainGrows(accumulator, bits, writer.data);
        DrainOne(accumulator, bits, writer.data);
        hide Drain;
        ok := writer.WriteAll([accumulator % 256]);
        if !ok { return; }
        accumulator := accumulator / 256;
        bits := bits - 8;
        if bits < 8 { return; }
      }
    }

    /** The last first character written out, or an error. */
    method Flush() returns (ok: bool)
      modifies this, writer
      ensures ok ==> writer.data == old(writer.data) + Rest(old(State())) && accumulator == 0 && bits == 0 && value == None
      ensures !ok ==> old(writer.data) <= writer.data <= old(writer.data) + Rest(old(State()))
      ensures old(writer.Reliable()) ==> ok
    {
      if value.Some? {
        var v := value.value;
        value := None;
        ok := writer.WriteAll([(accumulator + v * Pow2(bits)) % 256]);
        if !ok { return; }
      }
      bits := 0;
      accumulator := 0;
      ok := writer.Flush();
    }
  }

  lemma DrainOne(acc: nat, bits: nat, out: seq<Byte>)
    requires bits >= 8
    ensures var next := out + [acc % 256];
      Drain(acc, bits, out) == if bits - 8 < 8 then Dec(acc / 256, bits - 8, None, next) else Drain(acc / 256, bits - 8, next)
    ensures out + [acc % 256] <= Drain(acc, bits, out).out
  {
    if bits - 8 >= 8 { DrainGrows(acc / 256, bits - 8, out + [acc % 256]); }
  }

  /** `encode`, with the bytes arriving in any chunks, into memory. */
  method EncodeChunks(chunks: seq<seq<Byte>>) returns (result: seq<Byte>)
    ensures result == Encoded(Joined(chunks))
  {
    hide EncOk, Tail;
    var sink := new Sink(None, true);
    var writer := new Base91Encoder(sink);
    EncStartOk();
    for k := 0 to |chunks|
      invariant fresh(writer) && fresh(sink) && writer.writer == sink && sink.Reliable()
      invariant EncOk(writer.State()) && EncOk(Enc(0, 0, []))
      invariant writer.State() == EncAll(Enc(0, 0, []), Joined(chunks[..k]))
    {
      assert chunks[..k + 1][..k] == chunks[..k];
      EncAllSplit(Enc(0, 0, []), Joined(chunks[..k]), chunks[k]);
      var _ := writer.Write(chunks[k]);
    }
    assert chunks[..|chunks|] == chunks;
    var _ := writer.Flush();
    result := sink.data;
  }

  lemma EncStartOk()
    ensures EncOk(Enc(0, 0, []))
  {
  }

  /** `decode`, with the characters arriving in any chunks, into memory. */
  method DecodeChunks(chunks: seq<seq<Byte>>) returns (result: seq<Byte>)
    ensures result == Decoded(Joined(chunks))
  {
    hide Rest, DecByte;
    var sink := new Sink(None, true);
    var writer := new Base91Decoder(sink);
    for k := 0 to |chunks|
      invariant fresh(writer) && fresh(sink) && writer.writer == sink && sink.Reliable()
      invariant writer.State() == DecAll(Dec(0, 0, None, []), Joined(chunks[..k]))
    {
      assert chunks[..k + 1][..k] == chunks[..k];
      DecAllSplit(Dec(0, 0, None, []), Joined(chunks[..k]), chunks[k]);
      var _ := writer.Write(chunks[k]);
    }
    assert chunks[..|chunks|] == chunks;
    var _ := writer.Flush();
    result := sink.data;
  }
}
