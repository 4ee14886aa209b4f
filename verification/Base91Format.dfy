/** basE91 as a format: the bytes are one number, least significant byte first, and the text
    spells it in values of 13 or 14 bits, low bits first. The encoder, which sees a byte at a
    time, writes exactly that. */
module Base91Format {
  import opened Bytes
  import opened Base91

  /** The alphabet in the order of its digits. */
  const ALPHABET: string := CAPITALS + SMALL + FIGURES + "!#$%&()*+,./:;<=>?@[]^_`{|}~\""
  const CAPITALS: string := "ABCDEFGHI" + "JKLMNOPQR" + "STUVWXYZ"
  const SMALL: string := "abcdefghi" + "jklmnopqr" + "stuvwxyz"
  const FIGURES: string := "0123456789"

  /** The two characters of a value: its low digit first. */
  function Digits(value: nat): seq<int>
    requires value < 8281
  {
    [ALPHABET[value % 91] as int, ALPHABET[value / 91] as int]
  }

  /** The text for a number of `bits` bits. A value takes 13 bits, or 14 if 13 of them are 88 at
      most; up to 13 bits are left for the end, which takes one character if it can. */
  function Spelled(number: nat, bits: nat): (text: seq<int>)
    requires number < Pow2(bits)
    decreases bits
  {
    if bits > 13 then
      SpelledOn(number, bits);
      if number % 8192 > 88 then Digits(number % 8192) + Spelled(number / 8192, bits - 13)
      else Digits(number % 16384) + Spelled(number / 16384, bits - 14)
    else
      EndFits(number, bits);
      if bits == 0 then []
      else if bits > 7 || number > 90 then Digits(number)
      else [ALPHABET[number] as int]
  }

  lemma SpelledOn(number: nat, bits: nat)
    requires bits > 13 && number < Pow2(bits)
    ensures number / 8192 < Pow2(bits - 13) && number / 16384 < Pow2(bits - 14)
    ensures number % 8192 <= 88 ==> number % 16384 < 8281
  {
    hide Pow2;
    Pow2Values();
    Pow2Add(bits - 13, 13);
    Pow2Add(bits - 14, 14);
    ShiftDown(number, Pow2(bits - 13), 8192);
    ShiftDown(number, Pow2(bits - 14), 16384);
    WidthOf(number);
  }

  lemma EndFits(number: nat, bits: nat)
    requires bits <= 13 && number < Pow2(bits)
    ensures number < 8192
  {
    Pow2Values();
    Pow2Monotone(bits, 13);
  }

  lemma Capital(d: nat)
    requires d < 26
    ensures ALPHABET[d] as int == 65 + d
  {
    assert CAPITALS[d] as int == 65 + d;
  }

  lemma Small(d: nat)
    requires 26 <= d < 52
    ensures ALPHABET[d] as int == 97 + d - 26
  {
    assert SMALL[d - 26] as int == 97 + d - 26;
  }

  lemma Figure(d: nat)
    requires 52 <= d < 62
    ensures ALPHABET[d] as int == 48 + d - 52
  {
    assert FIGURES[d - 52] as int == 48 + d - 52;
  }

  lemma Punctuation(d: nat)
    requires 62 <= d < 91
    ensures ALPHABET[d] == PUNCTUATION[d - 62]
  {
  }

  lemma EnctabIs(d: nat)
    requires d < 91
    ensures |ALPHABET| == 91 && Enctab(d) == ALPHABET[d] as int
  {
    if d < 26 { Capital(d); } else if d < 52 { Small(d); } else if d < 62 { Figure(d); } else { Punctuation(d); }
  }

  /** The tables are the alphabet. */
  lemma AlphabetTables(d: nat, c: Byte)
    requires d < 91
    ensures |ALPHABET| == 91
    ensures Enctab(d) == ALPHABET[d] as int
    ensures Dectab(c) == d <==> ALPHABET[d] as int == c
  {
    EnctabIs(d);
    hide ALPHABET, Enctab, Dectab;
    if Dectab(c) == d { TablesInverseBack(c); }
    TablesInverse(d);
  }

  /** Every other byte is skipped. */
  lemma OthersSkipped(c: Byte)
    ensures Dectab(c) == INV <==> forall d :: 0 <= d < |ALPHABET| ==> ALPHABET[d] as int != c
  {
    if Dectab(c) != INV {
      AlphabetTables(Dectab(c), c);
    }
    if d: nat :| d < |ALPHABET| && ALPHABET[d] as int == c { AlphabetTables(d, c); }
  }

  lemma CharsAreDigits(value: nat)
    requires value < 8281
    ensures Chars(value) == Digits(value)
  {
    AlphabetTables(value % 91, 0);
    AlphabetTables(value / 91, 0);
  }

  // ----- Byte by byte -----

  /** The bits held, and above them the bytes to come. */
  function Ahead(e: Enc, rest: seq<Byte>): nat {
    e.acc + Pow2(e.bits) * Val(rest)
  }

  lemma {:induction false} ValFits(s: seq<Byte>)
    ensures Val(s) < Pow2(8 * |s|)
  {
    hide Pow2;
    Pow2Values();
    if s == [] {
      Pow2Zero();
    } else {
      ValFits(s[1..]);
      Pow2Add(8, 8 * |s[1..]|);
    }
  }

  lemma AheadFits(e: Enc, rest: seq<Byte>)
    requires EncOk(e)
    ensures Ahead(e, rest) < Pow2(e.bits + 8 * |rest|)
  {
    hide Pow2, Val;
    ValFits(rest);
    JoinedFits(e.acc, e.bits, Val(rest), 8 * |rest|);
    MulCommutes(Pow2(e.bits), Val(rest));
  }

  /** The number does not change when a byte moves from the ones to come to the ones held. */
  lemma AheadMoves(acc: nat, bits: nat, rest: seq<Byte>)
    requires rest != []
    ensures acc + Pow2(bits) * Val(rest) == (acc + rest[0] * Pow2(bits)) + Pow2(bits + 8) * Val(rest[1..])
  {
    hide Pow2, Val;
    ValHead(rest);
    Pow2Values();
    Handover(acc, bits, rest[0], Val(rest[1..]), 8);
  }

  lemma ValHead(s: seq<Byte>)
    requires s != []
    ensures Val(s) == 256 * Val(s[1..]) + s[0]
  {
  }

  /** Its low bits are those of what is held. */
  lemma LowBits(acc: nat, bits: nat, width: nat, more: nat)
    requires width <= bits
    ensures Pow2(width) > 0
    ensures (acc + Pow2(bits) * more) % Pow2(width) == acc % Pow2(width)
    ensures (acc + Pow2(bits) * more) / Pow2(width) == acc / Pow2(width) + Pow2(bits - width) * more
  {
    hide Pow2;
    Pow2Add(bits - width, width);
    var w, q := Pow2(width), Pow2(bits - width) * more;
    assert Pow2(bits) * more == w * q by { Regroup(Pow2(bits - width), w, more); }
    DivModBy(acc, q, w);
  }

  lemma Regroup(p: nat, w: nat, more: nat)
    ensures (p * w) * more == w * (p * more)
  {
  }

  lemma DivModBy(acc: nat, q: nat, w: nat)
    requires w > 0
    ensures (acc + w * q) % w == acc % w && (acc + w * q) / w == acc / w + q
  {
    var r, d := acc % w, acc / w;
    assert acc == w * d + r;
    assert acc + w * q == w * (d + q) + r by { assert w * (d + q) == w * d + w * q; }
    QuotientUnique(acc + w * q, w, d + q, r);
  }

  lemma QuotientUnique(n: nat, w: nat, d: nat, r: nat)
    requires w > 0 && r < w && n == w * d + r
    ensures n / w == d && n % w == r
  {
    var e, t := n / w, n % w;
    assert n == w * e + t;
    if e < d { Gap(w, e, d); }
    if d < e { Gap(w, d, e); }
  }

  lemma Gap(w: nat, a: nat, b: nat)
    requires a < b
    ensures w * a + w <= w * b
  {
    MulMonotone(a + 1, b, w);
    assert w * (a + 1) == w * a + w;
  }

  /** What is still to be written, once the encoder has some of the bytes. */
  function ToWrite(e: Enc, rest: seq<Byte>): seq<int>
    requires EncOk(e)
  {
    AheadFits(e, rest);
    Spelled(Ahead(e, rest), e.bits + 8 * |rest|)
  }

  /** One value taken from the bits held is one value of the text. */
  lemma ValueTaken(acc: nat, bits: nat, more: nat, all: nat, number: nat, width: nat, unit: nat, left: nat)
    requires bits > 13 && all >= bits && number == acc + Pow2(bits) * more && number < Pow2(all)
    requires (width, unit) == if acc % 8192 > 88 then (13, 8192) else (14, 16384)
    requires left == acc / unit + Pow2(bits - width) * more
    ensures acc % unit < 8281 && left < Pow2(all - width)
    ensures Spelled(number, all) == Digits(acc % unit) + Spelled(left, all - width)
  {
    hide Pow2, Digits, Spelled;
    Pow2Values();
    LowUnit(acc, bits, 13, 8192, more, number);
    LowUnit(acc, bits, 14, 16384, more, number);
    SpelledStep(number, all);
  }

  lemma LowUnit(acc: nat, bits: nat, width: nat, unit: nat, more: nat, number: nat)
    requires width <= bits && unit == Pow2(width) && number == acc + Pow2(bits) * more
    ensures unit > 0 && number % unit == acc % unit && number / unit == acc / unit + Pow2(bits - width) * more
  {
    hide Pow2;
    LowBits(acc, bits, width, more);
  }

  /** A byte more: what is written and what is to be written stays the same text. */
  lemma ByteWritten(e: Enc, rest: seq<Byte>)
    requires EncOk(e) && rest != []
    ensures var next := EncByte(e, rest[0]);
      EncOk(next) && e.out + ToWrite(e, rest) == next.out + ToWrite(next, rest[1..])
  {
    hide Val, Chars, Digits, Spelled, Pow2;
    var acc, bits, all, more := e.acc + rest[0] * Pow2(e.bits), e.bits + 8, e.bits + 8 * |rest|, Val(rest[1..]);
    var next := EncByte(e, rest[0]);
    EncByteOk(e, rest[0]);
    AheadMoves(e.acc, e.bits, rest);
    AheadFits(e, rest);
    AheadFits(next, rest[1..]);
    if bits > 13 {
      var (width, unit) := if acc % 8192 > 88 then (13, 8192) else (14, 16384);
      ValueTaken(acc, bits, more, all, Ahead(e, rest), width, unit, Ahead(next, rest[1..]));
      CharsAreDigits(acc % unit);
      Gathered(e.out, Digits(acc % unit), ToWrite(next, rest[1..]));
    }
  }

  lemma Gathered(a: seq<int>, b: seq<int>, c: seq<int>)
    ensures a + (b + c) == (a + b) + c
  {
  }

  lemma SpelledStep(number: nat, bits: nat)
    requires bits > 13 && number < Pow2(bits)
    ensures number / 8192 < Pow2(bits - 13) && number / 16384 < Pow2(bits - 14)
    ensures number % 8192 <= 88 ==> number % 16384 < 8281
    ensures Spelled(number, bits) ==
      if number % 8192 > 88 then Digits(number % 8192) + Spelled(number / 8192, bits - 13)
      else Digits(number % 16384) + Spelled(number / 16384, bits - 14)
  {
    SpelledOn(number, bits);
  }

  /** At the end a flush writes the rest. */
  lemma TailWritten(e: Enc)
    requires EncOk(e)
    ensures Tail(e) == ToWrite(e, [])
  {
    hide Enctab, ALPHABET, Pow2;
    AheadFits(e, []);
    EndFits(e.acc, e.bits);
    if e.bits > 0 {
      if e.bits > 7 || e.acc > 90 { CharsAreDigits(e.acc); } else { AlphabetTables(e.acc, 0); }
    }
  }

  lemma {:induction false} AllWritten(bs: seq<Byte>, n: nat)
    requires n <= |bs| && EncOk(Enc(0, 0, []))
    ensures var e := EncAll(Enc(0, 0, []), bs[..n]);
      e.out + ToWrite(e, bs[n..]) == ToWrite(Enc(0, 0, []), bs)
  {
    hide EncByte, ToWrite, EncOk;
    if n == 0 {
      assert bs[..0] == [] && bs[0..] == bs;
    } else {
      AllWritten(bs, n - 1);
      assert bs[..n][..n - 1] == bs[..n - 1];
      var e := EncAll(Enc(0, 0, []), bs[..n - 1]);
      ByteWritten(e, bs[n - 1..]);
      assert bs[n - 1..][1..] == bs[n..];
    }
  }

  /** The encoding of any bytes is the text of their number. */
  lemma EncodedIsSpelled(bs: seq<Byte>)
    ensures Val(bs) < Pow2(8 * |bs|)
    ensures Encoded(bs) == Spelled(Val(bs), 8 * |bs|)
  {
    hide Pow2, Val, Spelled, Tail, ToWrite, EncAll, EncOk;
    ValFits(bs);
    EncStartOk();
    AllWritten(bs, |bs|);
    assert bs[..|bs|] == bs && bs[|bs|..] == [];
    TailWritten(EncAll(Enc(0, 0, []), bs));
    StartToWrite(bs);
  }

  lemma StartToWrite(bs: seq<Byte>)
    requires EncOk(Enc(0, 0, [])) && Val(bs) < Pow2(8 * |bs|)
    ensures ToWrite(Enc(0, 0, []), bs) == Spelled(Val(bs), 8 * |bs|)
  {
    hide Val, Spelled;
    Pow2Zero();
  }
}
