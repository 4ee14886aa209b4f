/** The numbers and the frames on the wire, by what their bytes mean: a number is a sum of
    seven-bit groups, and a frame is a length, a serial, an identifier and a payload. */
module WireFormat {
  import opened Wrappers
  import opened Bytes
  import opened Leb128
  import opened Framing

  // ----- Numbers -----

  function Weight(k: nat): (w: nat)
    ensures w >= 1
  {
    if k == 0 then 1 else 128 * Weight(k - 1)
  }

  /** The first `n` groups of seven bits, each worth 128 times the one before. */
  function Sum(s: seq<Byte>, n: nat): nat
    requires n <= |s|
  {
    if n == 0 then 0 else Sum(s, n - 1) + s[n - 1] % 128 * Weight(n - 1)
  }

  /** The first byte without the continuation bit ends the number: it is the `n`-th. */
  ghost predicate EndsAt(s: seq<Byte>, n: nat) {
    1 <= n <= |s| && s[n - 1] < 128 && forall i :: 0 <= i < n - 1 ==> s[i] >= 128
  }

  ghost predicate IsNumber(s: seq<Byte>, v: nat) {
    EndsAt(s, |s|) && Sum(s, |s|) == v
  }

  /** Without a last group of zero. */
  ghost predicate IsShortest(s: seq<Byte>, v: nat) {
    IsNumber(s, v) && (|s| > 1 ==> s[|s| - 1] != 0)
  }

  lemma {:induction false} SumFromFront(s: seq<Byte>, n: nat)
    requires 1 <= n <= |s|
    ensures Sum(s, n) == s[0] % 128 + 128 * Sum(s[1..], n - 1)
  {
    if n > 1 {
      SumFromFront(s, n - 1);
      var g, w := s[n - 1] % 128, Weight(n - 2);
      assert s[1..][n - 2] == s[n - 1];
      Carry(g, w);
    }
  }

  lemma Carry(g: nat, w: nat)
    ensures g * (128 * w) == 128 * (g * w)
  {
  }

  lemma EndsAtFront(s: seq<Byte>, n: nat)
    requires s != []
    ensures EndsAt(s, n) <==> n >= 1 && if s[0] < 128 then n == 1 else EndsAt(s[1..], n - 1)
  {
    if s[0] >= 128 && n >= 1 && EndsAt(s[1..], n - 1) {
      forall i | 0 <= i < n - 1 ensures s[i] >= 128 {
        if i > 0 { assert s[i] == s[1..][i - 1]; }
      }
    }
  }

  lemma {:induction false} SkipEnds(s: seq<Byte>, n: nat)
    requires EndsAt(s, n)
    ensures SkipRest(s) == TooLarge(n)
  {
    EndsAtFront(s, n);
    hide EndsAt;
    if s[0] >= 128 { SkipEnds(s[1..], n - 1); }
  }

  /** One group, or the first of several. */
  lemma FirstGroup(s: seq<Byte>, n: nat)
    requires EndsAt(s, n)
    ensures 1 <= n <= |s|
    ensures if s[0] < 128 then n == 1 && Sum(s, n) == s[0]
            else n > 1 && EndsAt(s[1..], n - 1) && Sum(s, n) == s[0] - 128 + 128 * Sum(s[1..], n - 1)
  {
    EndsAtFront(s, n);
    SumFromFront(s, n);
    assert Sum(s[1..], 0) == 0;
  }

  lemma RoomNext(k: nat)
    requires k <= 9
    ensures Room(k) == if k == 9 then 2 else 128 * Room(k + 1)
  {
  }

  lemma {:induction false} ReadEnds(s: seq<Byte>, k: nat, n: nat)
    requires k <= 9 && EndsAt(s, n)
    ensures n <= |s|
    ensures ReadFrom(s, k) == if k + n <= 10 && Sum(s, n) < Room(k) then Number(Sum(s, n), n) else TooLarge(n)
    decreases 9 - k
  {
    FirstGroup(s, n);
    RoomEnough(k);
    RoomNext(k);
    hide EndsAt, Sum, SkipRest, Room;
    if k == 9 && s[0] > 1 {
      SkipEnds(s, n);
    } else if s[0] >= 128 {
      ReadEnds(s[1..], k + 1, n - 1);
    }
  }

  lemma {:induction false} ReadWithoutEnd(s: seq<Byte>, k: nat)
    requires k <= 9 && forall i :: 0 <= i < |s| ==> s[i] >= 128
    ensures ReadFrom(s, k) == Short && SkipRest(s) == Short
    decreases |s|
  {
    if s != [] {
      if k < 9 { ReadWithoutEnd(s[1..], k + 1); } else { ReadWithoutEnd(s[1..], 9); }
    }
  }

  /** Reading takes the bytes up to the first without the continuation bit, at most ten for a
      number of 64 bits, and gives their sum; without such a byte there is no number yet. */
  lemma ReadMeans(s: seq<Byte>)
    ensures forall n: nat :: EndsAt(s, n) ==>
      ReadU64(s) == if n <= 10 && Sum(s, n) < 0x1_0000_0000_0000_0000 then Number(Sum(s, n), n) else TooLarge(n)
    ensures ReadU64(s).Short? <==> forall i :: 0 <= i < |s| ==> s[i] >= 128
  {
    RoomIs64Bits();
    hide Sum, ReadFrom;
    forall n: nat | EndsAt(s, n)
      ensures ReadU64(s) == if n <= 10 && Sum(s, n) < 0x1_0000_0000_0000_0000 then Number(Sum(s, n), n) else TooLarge(n)
    {
      ReadEnds(s, 0, n);
    }
    if forall i :: 0 <= i < |s| ==> s[i] >= 128 {
      ReadWithoutEnd(s, 0);
    } else {
      var n := FirstEnd(s);
    }
  }

  lemma {:induction false} FirstEnd(s: seq<Byte>) returns (n: nat)
    requires exists i :: 0 <= i < |s| && s[i] < 128
    ensures EndsAt(s, n)
  {
    if s[0] < 128 {
      n := 1;
    } else {
      var i :| 0 <= i < |s| && s[i] < 128;
      assert s[1..][i - 1] < 128;
      n := FirstEnd(s[1..]);
      EndsAtFront(s, n + 1);
      n := n + 1;
    }
  }

  lemma ShortestFront(s: seq<Byte>, v: nat)
    requires s != []
    ensures IsShortest(s, v) <==>
      if s[0] < 128 then |s| == 1 && v == s[0]
      else |s| > 1 && v >= 128 && v % 128 == s[0] - 128 && IsShortest(s[1..], v / 128)
  {
    if EndsAt(s, |s|) { FirstGroup(s, |s|); }
    EndsAtFront(s, |s|);
    if s[0] >= 128 && |s| > 1 {
      var t := s[1..];
      LastCounts(t);
      SplitSum(v, s[0], Sum(t, |t|));
    }
    hide EndsAt, Sum;
  }

  lemma LebFront(s: seq<Byte>, v: nat)
    requires s != []
    ensures s == Leb(v) <==>
      if s[0] < 128 then |s| == 1 && v == s[0]
      else |s| > 1 && v >= 128 && v % 128 == s[0] - 128 && s[1..] == Leb(v / 128)
  {
    if |s| > 1 { assert s == [s[0]] + s[1..]; }
  }

  /** What is written is the one shortest number. */
  lemma {:induction false} LebMeans(s: seq<Byte>, v: nat)
    ensures s == Leb(v) <==> IsShortest(s, v)
    decreases v
  {
    hide IsShortest, Leb;
    if s == [] {
      NothingIsShort(v);
    } else {
      ShortestFront(s, v);
      LebFront(s, v);
      if v >= 128 { LebMeans(s[1..], v / 128); }
    }
  }

  lemma NothingIsShort(v: nat)
    ensures !IsShortest([], v)
  {
  }

  lemma SplitSum(v: nat, b: Byte, w: nat)
    requires b >= 128
    ensures v == b % 128 + 128 * w <==> b == 128 + v % 128 && w == v / 128
  {
  }

  lemma LastCounts(t: seq<Byte>)
    requires t != []
    ensures t[|t| - 1] % 128 != 0 ==> Sum(t, |t|) >= 1
  {
    var g, w := t[|t| - 1] % 128, Weight(|t| - 1);
    if g >= 1 { AtLeast(g, w); }
  }

  lemma AtLeast(g: nat, w: nat)
    requires g >= 1 && w >= 1
    ensures g * w >= 1
  {
  }

  // ----- Frames -----

  /** The length counts what follows it; its top bit says that the payload is compressed. */
  ghost predicate FrameParts(s: seq<Byte>, a: seq<Byte>, b: seq<Byte>, c: seq<Byte>, ident: U64, serial: U64, data: seq<Byte>, compressed: bool) {
    && s == a + b + c + data
    && IsShortest(a, |b| + |c| + |data| + (if compressed then 0x8000_0000_0000_0000 else 0))
    && IsShortest(b, serial)
    && IsShortest(c, ident)
  }

  ghost predicate IsFrame(s: seq<Byte>, ident: U64, serial: U64, data: seq<Byte>, compressed: bool) {
    exists a, b, c :: FrameParts(s, a, b, c, ident, serial, data, compressed)
  }

  /** A frame is a length, a serial, an identifier and a payload, in this order. */
  lemma EncodingMeans(f: Frame, s: seq<Byte>)
    ensures s == Encoding(f) <==> IsFrame(s, f.ident, f.serial, f.data, f.compressed)
  {
    hide IsShortest, Leb;
    var x, y, z := Leb(MaskedLen(f)), Leb(f.serial), Leb(f.ident);
    LebMeans(x, MaskedLen(f));
    LebMeans(y, f.serial);
    LebMeans(z, f.ident);
    assert Encoding(f) == x + y + z + f.data;
    assert FrameParts(Encoding(f), x, y, z, f.ident, f.serial, f.data, f.compressed);
    if a, b, c :| FrameParts(s, a, b, c, f.ident, f.serial, f.data, f.compressed) {
      LebMeans(b, f.serial);
      LebMeans(c, f.ident);
      LebMeans(a, MaskedLen(f));
    }
  }

  /** A frame reads back if its payload has at most 64 MiB, and is refused if it has more. */
  lemma FrameRead(s: seq<Byte>, rest: seq<Byte>, ident: U64, serial: U64, data: seq<Byte>, compressed: bool)
    requires IsFrame(s, ident, serial, data, compressed) && |data| < 0x4000_0000_0000_0000
    ensures Decode(s + rest, None) ==
      if |data| <= 67_108_864 then Success((Frame(ident, serial, data, compressed), |s|)) else Failure(OverMaxSize)
  {
    hide IsFrame, Decode, Encoding;
    var f := Frame(ident, serial, data, compressed);
    EncodingMeans(f, s);
    SmallNumber(ident);
    SmallNumber(serial);
    FrameReadsBack(f, rest);
  }

  lemma SmallNumber(v: U64)
    ensures |Leb(v)| <= 10
  {
    ReadsBack(v, []);
    assert Leb(v) + [] == Leb(v);
    ReadMeans(Leb(v));
    LebMeans(Leb(v), v);
  }

  // ----- What is refused -----

  /** A number of 64 bits at the front. */
  ghost predicate Starts(s: seq<Byte>, v: nat, n: nat) {
    EndsAt(s, n) && n <= 10 && v == Sum(s, n) < 0x1_0000_0000_0000_0000
  }

  lemma StartsRead(s: seq<Byte>, v: nat, n: nat)
    requires Starts(s, v, n)
    ensures ReadU64(s) == Number(v, n)
  {
    ReadMeans(s);
  }

  /** What becomes of three numbers: a serial beyond the limit is refused, then a length below
      that of the shortest serial and identifier, then data over 64 MiB; then the data must be
      there. */
  lemma DecodeMeans(s: seq<Byte>, maxSerial: Option<U64>, tagged: nat, a: nat, serial: U64, b: nat, ident: U64, c: nat,
                    y: seq<Byte>, z: seq<Byte>)
    requires Starts(s, tagged, a) && Starts(s[a..], serial, b) && Starts(s[a + b..], ident, c)
    requires IsShortest(y, serial) && IsShortest(z, ident)
    ensures var shortest := |y| + |z|;
      var compressed := tagged >= 0x8000_0000_0000_0000;
      var len := if compressed then tagged - 0x8000_0000_0000_0000 else tagged;
      var start, end := a + b + c, a + b + c + len - shortest;
      Decode(s, maxSerial) ==
        if maxSerial.Some? && 0 < maxSerial.value < serial then Failure(SerialImplausible)
        else if len < shortest then Failure(SizesMakeNoSense)
        else if len - shortest > 67_108_864 then Failure(OverMaxSize)
        else if end > |s| then Failure(Eof)
        else Success((Frame(ident, serial, s[start..end], compressed), end))
  {
    hide Starts, ReadU64, Leb, IsShortest;
    StartsRead(s, tagged, a);
    StartsRead(s[a..], serial, b);
    StartsRead(s[a + b..], ident, c);
    LebMeans(y, serial);
    LebMeans(z, ident);
  }
}
