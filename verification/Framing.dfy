/** Frames: a length with a compression mark, a serial, an identifier and a payload;
    and taking them from a stream that arrives in pieces. */
module Framing {
  import opened Wrappers
  import opened Bytes
  import opened Leb128

  /** COMPRESSED_MASK */
  const MASK: nat := 0x8000_0000_0000_0000

  /** MAX_PDU_SIZE */
  const MAX_PDU_SIZE: nat := 64 * 1024 * 1024

  datatype Frame = Frame(ident: U64, serial: U64, data: seq<Byte>, compressed: bool)

  /** Why there is no frame. `Eof` is any error whose root is an input that ended or
      would block. */
  datatype Failure = Eof | NumberTooLarge | SerialImplausible | SizesMakeNoSense | OverMaxSize | Corrupt | Io

  /** The mask and its complement take the length apart. */
  lemma MaskTests(x: bv64)
    ensures (x & 0x8000_0000_0000_0000 != 0) <==> x >= 0x8000_0000_0000_0000
  {
  }

  lemma MaskClears(x: bv64)
    requires x >= 0x8000_0000_0000_0000
    ensures x & 0x7FFF_FFFF_FFFF_FFFF == x - 0x8000_0000_0000_0000
  {
  }

  lemma MaskSets(x: bv64)
    requires x < 0x8000_0000_0000_0000
    ensures x | 0x8000_0000_0000_0000 == x + 0x8000_0000_0000_0000
  {
  }

  // ----- Encoding -----

  /** What the length field counts: everything behind it. */
  function FrameLen(f: Frame): nat {
    |f.data| + EncodedLength(f.ident) + EncodedLength(f.serial)
  }

  /** A length the field can hold next to the mark; every buffer has one. */
  predicate Encodable(f: Frame) {
    FrameLen(f) < MASK
  }

  function MaskedLen(f: Frame): nat {
    if f.compressed then FrameLen(f) + MASK else FrameLen(f)
  }

  function Encoding(f: Frame): seq<Byte> {
    Leb(MaskedLen(f)) + (Leb(f.serial) + (Leb(f.ident) + f.data))
  }

  /** `encode_raw_as_vec` */
  method EncodeRawAsVec(ident: U64, serial: U64, data: seq<Byte>, compressed: bool) returns (buffer: seq<Byte>)
    requires Encodable(Frame(ident, serial, data, compressed))
    ensures buffer == Encoding(Frame(ident, serial, data, compressed))
  {
    var len := |data| + EncodedLength(ident) + EncodedLength(serial);
    var masked := if compressed then len + MASK else len;
    buffer := [];
    buffer := buffer + Leb(masked);
    buffer := buffer + Leb(serial);
    buffer := buffer + Leb(ident);
    buffer := buffer + data;
  }

  // ----- Decoding -----

  datatype Header = Header(len: nat, compressed: bool, serial: U64, ident: U64)

  predicate Implausible(serial: U64, maxSerial: Option<U64>) {
    maxSerial.Some? && serial > maxSerial.value > 0
  }

  /** The three numbers, and how many bytes they take. */
  function ReadHeader(s: seq<Byte>, maxSerial: Option<U64>): (r: Result<(Header, nat), Failure>)
    ensures r.Success? ==> 1 <= r.value.1 <= |s|
  {
    match ReadU64(s)
    case Short => Failure(Eof)
    case TooLarge(_) => Failure(NumberTooLarge)
    case Number(tagged, a) =>
      var compressed := tagged >= MASK;
      var len := if compressed then tagged - MASK else tagged;
      match ReadU64(s[a..])
      case Short => Failure(Eof)
      case TooLarge(_) => Failure(NumberTooLarge)
      case Number(serial, b) =>
        if Implausible(serial, maxSerial) then Failure(SerialImplausible)
        else
          match ReadU64(s[a + b..])
          case Short => Failure(Eof)
          case TooLarge(_) => Failure(NumberTooLarge)
          case Number(ident, c) => Success((Header(len, compressed, serial, ident), a + b + c))
  }

  /** How much payload a header announces. */
  function DataLen(h: Header): Result<nat, Failure> {
    var overhead := EncodedLength(h.ident) + EncodedLength(h.serial);
    if h.len < overhead then Failure(SizesMakeNoSense)
    else if h.len - overhead > MAX_PDU_SIZE then Failure(OverMaxSize)
    else Success(h.len - overhead)
  }

  /** The frame in front, and how many bytes it takes. */
  function Decode(s: seq<Byte>, maxSerial: Option<U64>): (r: Result<(Frame, nat), Failure>)
    ensures r.Success? ==> |r.value.0.data| <= MAX_PDU_SIZE && 1 <= r.value.1 <= |s|
  {
    match ReadHeader(s, maxSerial)
    case Failure(e) => Failure(e)
    case Success((h, n)) =>
      match DataLen(h)
      case Failure(e) => Failure(e)
      case Success(size) =>
        if |s| - n < size then Failure(Eof)
        else Success((Frame(h.ident, h.serial, s[n..n + size], h.compressed), n + size))
  }

  /** The header in terms of what is left after each number. */
  lemma HeaderInSteps(s: seq<Byte>, maxSerial: Option<U64>)
    ensures var r := ReadHeader(s, maxSerial);
      match ReadU64(s)
      case Short => r == Failure(Eof)
      case TooLarge(_) => r == Failure(NumberTooLarge)
      case Number(tagged, a) =>
        var s1 := s[a..];
        match ReadU64(s1)
        case Short => r == Failure(Eof)
        case TooLarge(_) => r == Failure(NumberTooLarge)
        case Number(serial, b) =>
          if Implausible(serial, maxSerial) then r == Failure(SerialImplausible)
          else
            var s2 := s1[b..];
            match ReadU64(s2)
            case Short => r == Failure(Eof)
            case TooLarge(_) => r == Failure(NumberTooLarge)
            case Number(ident, c) =>
              && r == Success((Header(if tagged >= MASK then tagged - MASK else tagged, tagged >= MASK, serial, ident), a + b + c))
              && s2[c..] == s[a + b + c..]
  {
    hide ReadU64;
    if ReadU64(s).Number? {
      var a := ReadU64(s).used;
      if ReadU64(s[a..]).Number? {
        assert s[a..][ReadU64(s[a..]).used..] == s[a + ReadU64(s[a..]).used..];
      }
    }
  }

  lemma DecodeInSteps(s: seq<Byte>, maxSerial: Option<U64>)
    ensures match ReadHeader(s, maxSerial)
            case Failure(e) => Decode(s, maxSerial) == Failure(e)
            case Success((h, n)) =>
              match DataLen(h)
              case Failure(e) => Decode(s, maxSerial) == Failure(e)
              case Success(size) =>
                if |s| - n < size then Decode(s, maxSerial) == Failure(Eof)
                else Decode(s, maxSerial) == Success((Frame(h.ident, h.serial, s[n..][..size], h.compressed), n + size))
                     && s[n + size..] == s[n..][size..]
  {
    hide ReadHeader, DataLen;
    if ReadHeader(s, maxSerial).Success? {
      var (h, n) := ReadHeader(s, maxSerial).value;
      if DataLen(h).Success? && DataLen(h).value <= |s| - n { Sliced(s, n, DataLen(h).value); }
    }
  }

  lemma Sliced(s: seq<Byte>, n: nat, d: nat)
    requires n + d <= |s|
    ensures s[n..][..d] == s[n..n + d] && s[n..][d..] == s[n + d..]
  {
  }

  /** The three numbers of `decode_raw`. */
  method ReadHeaderSync(r: Stream) returns (h: Result<Header, Failure>)
    modifies r
    ensures match ReadHeader(old(r.rest), None)
            case Success((header, n)) => h == Success(header) && r.rest == old(r.rest)[n..]
            case Failure(e) => h == Failure(e)
  {
    hide ReadU64, ReadHeader;
    HeaderInSteps(old(r.rest), None);
    var tagged := r.ReadU64Sync();
    if !tagged.Number? { return Failure(if tagged.Short? then Eof else NumberTooLarge); }
    var compressed := tagged.value >= MASK;
    var len := if compressed then tagged.value - MASK else tagged.value;
    var serial := r.ReadU64Sync();
    if !serial.Number? { return Failure(if serial.Short? then Eof else NumberTooLarge); }
    var ident := r.ReadU64Sync();
    if !ident.Number? { return Failure(if ident.Short? then Eof else NumberTooLarge); }
    return Success(Header(len, compressed, serial.value, ident.value));
  }

  /** `decode_raw` */
  method DecodeRaw(r: Stream) returns (d: Result<Frame, Failure>)
    modifies r
    ensures match Decode(old(r.rest), None)
            case Success((f, n)) => d == Success(f) && r.rest == old(r.rest)[n..]
            case Failure(e) => d == Failure(e)
  {
    hide EncodedLength, ReadHeader, Decode;
    DecodeInSteps(old(r.rest), None);
    var h := ReadHeaderSync(r);
    if h.Failure? { return Failure(h.error); }
    var overhead := EncodedLength(h.value.ident) + EncodedLength(h.value.serial);
    if h.value.len < overhead { return Failure(SizesMakeNoSense); }
    var dataLen := h.value.len - overhead;
    if dataLen > MAX_PDU_SIZE { return Failure(OverMaxSize); }
    var data := r.ReadExact(dataLen);
    if data == None { return Failure(Eof); }
    return Success(Frame(h.value.ident, h.value.serial, data.value, h.value.compressed));
  }

  /** The three numbers of `decode_raw_async`, which can also refuse a serial. */
  method ReadHeaderAsync(r: Stream, maxSerial: Option<U64>) returns (h: Result<Header, Failure>)
    modifies r
    ensures match ReadHeader(old(r.rest), maxSerial)
            case Success((header, n)) => h == Success(header) && r.rest == old(r.rest)[n..]
            case Failure(e) => h == Failure(e)
  {
    hide ReadU64, Implausible, ReadHeader;
    HeaderInSteps(old(r.rest), maxSerial);
    var tagged := r.ReadU64Async();
    if !tagged.Number? { return Failure(if tagged.Short? then Eof else NumberTooLarge); }
    var compressed := tagged.value >= MASK;
    var len := if compressed then tagged.value - MASK else tagged.value;
    var serial := r.ReadU64Async();
    if !serial.Number? { return Failure(if serial.Short? then Eof else NumberTooLarge); }
    if Implausible(serial.value, maxSerial) { return Failure(SerialImplausible); }
    var ident := r.ReadU64Async();
    if !ident.Number? { return Failure(if ident.Short? then Eof else NumberTooLarge); }
    return Success(Header(len, compressed, serial.value, ident.value));
  }

  /** `decode_raw_async` */
  method DecodeRawAsync(r: Stream, maxSerial: Option<U64>) returns (d: Result<Frame, Failure>)
    modifies r
    ensures match Decode(old(r.rest), maxSerial)
            case Success((f, n)) => d == Success(f) && r.rest == old(r.rest)[n..]
            case Failure(e) => d == Failure(e)
  {
    hide EncodedLength, ReadHeader, Decode;
    DecodeInSteps(old(r.rest), maxSerial);
    var h := ReadHeaderAsync(r, maxSerial);
    if h.Failure? { return Failure(h.error); }
    var overhead := EncodedLength(h.value.ident) + EncodedLength(h.value.serial);
    if h.value.len < overhead { return Failure(SizesMakeNoSense); }
    var dataLen := h.value.len - overhead;
    if dataLen > MAX_PDU_SIZE { return Failure(OverMaxSize); }
    var data := r.ReadExact(dataLen);
    if data == None { return Failure(Eof); }
    return Success(Frame(h.value.ident, h.value.serial, data.value, h.value.compressed));
  }

  // ----- Round trip -----

  lemma HeaderReadsBack(f: Frame, tail: seq<Byte>)
    requires Encodable(f)
    ensures var s := Leb(MaskedLen(f)) + (Leb(f.serial) + (Leb(f.ident) + tail));
      var h := Header(FrameLen(f), f.compressed, f.serial, f.ident);
      var n := |Leb(MaskedLen(f))| + |Leb(f.serial)| + |Leb(f.ident)|;
      ReadHeader(s, None) == Success((h, n)) && s[n..] == tail
  {
    hide ReadU64, Leb;
    var x, y, z := Leb(MaskedLen(f)), Leb(f.serial), Leb(f.ident);
    var s := x + (y + (z + tail));
    ReadsBack(MaskedLen(f), y + (z + tail));
    ReadsBack(f.serial, z + tail);
    ReadsBack(f.ident, tail);
    assert s[|x|..] == y + (z + tail);
    assert s[|x| + |y|..] == z + tail;
    assert s[|x| + |y| + |z|..] == tail;
  }

  /** A frame reads back from the front of whatever begins with its encoding, exactly
      when its payload is within the size limit; above it the header is refused. */
  lemma FrameReadsBack(f: Frame, rest: seq<Byte>)
    requires Encodable(f)
    ensures |f.data| <= MAX_PDU_SIZE ==> Decode(Encoding(f) + rest, None) == Success((f, |Encoding(f)|))
    ensures |f.data| > MAX_PDU_SIZE ==> Decode(Encoding(f) + rest, None) == Failure(OverMaxSize)
  {
    hide ReadHeader, Leb;
    var x, y, z := Leb(MaskedLen(f)), Leb(f.serial), Leb(f.ident);
    var s := Encoding(f) + rest;
    var n := |x| + |y| + |z|;
    assert s == x + (y + (z + (f.data + rest)));
    HeaderReadsBack(f, f.data + rest);
    assert s[n..n + |f.data|] == s[n..][..|f.data|] == f.data;
    assert |Encoding(f)| == n + |f.data|;
  }

  /** An oversized frame is refused as soon as its header is there, before any of its
      payload. */
  lemma OversizeRefusedEarly(f: Frame, some: seq<Byte>)
    requires Encodable(f) && |f.data| > MAX_PDU_SIZE
    ensures Decode(Leb(MaskedLen(f)) + (Leb(f.serial) + (Leb(f.ident) + some)), None) == Failure(OverMaxSize)
  {
    hide ReadHeader, Leb;
    HeaderReadsBack(f, some);
  }

  /** A serial limit takes away exactly the frames with a greater serial. */
  lemma SerialLimit(s: seq<Byte>, maxSerial: U64, f: Frame, n: nat)
    ensures Decode(s, Some(maxSerial)) == Success((f, n)) <==>
            Decode(s, None) == Success((f, n)) && (maxSerial == 0 || f.serial <= maxSerial)
  {
    hide ReadU64, Leb;
  }

  // ----- More bytes -----

  lemma HeaderStable(s: seq<Byte>, t: seq<Byte>, maxSerial: Option<U64>)
    requires ReadHeader(s, maxSerial) != Failure(Eof)
    ensures ReadHeader(s + t, maxSerial) == ReadHeader(s, maxSerial)
  {
    hide ReadFrom;
    ReadStable(s, t, 0);
    if ReadU64(s).Number? {
      var a := ReadU64(s).used;
      assert (s + t)[a..] == s[a..] + t;
      ReadStable(s[a..], t, 0);
      if ReadU64(s[a..]).Number? && !Implausible(ReadU64(s[a..]).value, maxSerial) {
        var b := ReadU64(s[a..]).used;
        assert (s + t)[a + b..] == s[a + b..] + t;
        ReadStable(s[a + b..], t, 0);
      }
    }
  }

  /** A decision that more bytes could change is only ever `Eof`. */
  lemma DecodeStable(s: seq<Byte>, t: seq<Byte>, maxSerial: Option<U64>)
    requires Decode(s, maxSerial) != Failure(Eof)
    ensures Decode(s + t, maxSerial) == Decode(s, maxSerial)
  {
    hide ReadHeader, Leb;
    HeaderStable(s, t, maxSerial);
    if Decode(s, maxSerial).Success? {
      var (h, n) := ReadHeader(s, maxSerial).value;
      var size := DataLen(h).value;
      assert (s + t)[n..n + size] == s[n..n + size];
    }
  }

  lemma TakesWhatIsThere(s: seq<Byte>)
    ensures Decode(s, None).Success? ==> Decode(s, None).value.1 <= |s|
  {
  }

  /** A proper prefix of a frame is not an error and not a frame. */
  lemma PrefixIsEof(f: Frame, k: nat)
    requires Encodable(f) && |f.data| <= MAX_PDU_SIZE && k < |Encoding(f)|
    ensures Decode(Encoding(f)[..k], None) == Failure(Eof)
  {
    hide Decode, Encoding, Encodable;
    var s := Encoding(f);
    assert s[..k] + s[k..] == s + [];
    FrameReadsBack(f, []);
    if Decode(s[..k], None) != Failure(Eof) {
      DecodeStable(s[..k], s[k..], None);
      TakesWhatIsThere(s[..k]);
    }
  }

  /** A frame that is read has taken at least its encoding, and no more than it only
      if the bytes are its encoding. */
  lemma DecodedIsShortest(s: seq<Byte>, maxSerial: Option<U64>)
    requires Decode(s, maxSerial).Success?
    ensures var (f, n) := Decode(s, maxSerial).value;
      && Encodable(f) && n >= |Encoding(f)|
      && (n == |Encoding(f)| <==> s[..n] == Encoding(f))
  {
    hide ReadFrom, Leb;
    var a, b := ReadU64(s).used, ReadU64(s[ReadU64(s).used..]).used;
    var c := ReadU64(s[a + b..]).used;
    LebShortest(s, 0);
    LebShortest(s[a..], 0);
    LebShortest(s[a + b..], 0);
    var (f, n) := Decode(s, maxSerial).value;
    assert FrameLen(f) == ReadHeader(s, maxSerial).value.0.len;
    assert MaskedLen(f) == ReadU64(s).value;
    assert s[..n] == s[..a] + (s[a..][..b] + (s[a + b..][..c] + f.data));
    PartsEqual(s[..a], s[a..][..b], s[a + b..][..c], Leb(MaskedLen(f)), Leb(f.serial), Leb(f.ident), f.data);
  }

  lemma PartsEqual(x: seq<Byte>, y: seq<Byte>, z: seq<Byte>, x': seq<Byte>, y': seq<Byte>, z': seq<Byte>, d: seq<Byte>)
    requires |x| >= |x'| && (|x| == |x'| <==> x == x')
    requires |y| >= |y'| && (|y| == |y'| <==> y == y')
    requires |z| >= |z'| && (|z| == |z'| <==> z == z')
    ensures x + (y + (z + d)) == x' + (y' + (z' + d)) <==> |x| + |y| + |z| == |x'| + |y'| + |z'|
  {
    var l, r := x + (y + (z + d)), x' + (y' + (z' + d));
    if l == r { assert |l| == |r|; }
  }
}
