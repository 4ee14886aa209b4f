/** LEB128 (section 7.6 of DWARF 5), for unsigned values of 64 bits. */
module Leb128 {
  import opened Wrappers
  import opened Bytes

  type U64 = x: int | 0 <= x < 0x1_0000_0000_0000_0000

  /** The encoding of a value: seven bits a byte, the low ones first. */
  function Leb(v: nat): (s: seq<Byte>)
    ensures |s| >= 1
  {
    if v < 128 then [v] else [128 + v % 128] + Leb(v / 128)
  }

  /** `encoded_length` */
  function EncodedLength(v: nat): nat {
    |Leb(v)|
  }

  /** What a reader makes of the bytes in front of it, and how many it takes. */
  datatype Read = Number(value: nat, used: nat) | Short | TooLarge(used: nat)

  /** Skip to the end of a number that is too large. */
  function SkipRest(s: seq<Byte>): (r: Read)
    ensures !r.Number?
    ensures r.TooLarge? ==> 1 <= r.used <= |s|
  {
    if s == [] then Short
    else if s[0] < 128 then TooLarge(1)
    else match SkipRest(s[1..])
      case TooLarge(n) => TooLarge(n + 1)
      case _ => Short
  }

  /** How large a value the groups from the k-th on can make: 64 bits in all, so the
      tenth group has one bit left. */
  function Room(k: nat): (n: nat)
    requires k <= 9
    decreases 9 - k
  {
    if k == 9 then 2 else 128 * Room(k + 1)
  }

  /** Read a number from its k-th group on. */
  function ReadFrom(s: seq<Byte>, k: nat): (r: Read)
    requires k <= 9
    ensures r.Number? ==> r.value < Room(k)
    ensures !r.Short? ==> 1 <= r.used <= |s|
    decreases 9 - k
  {
    if s == [] then Short
    else if k == 9 && s[0] > 1 then SkipRest(s)
    else if s[0] < 128 then
      RoomEnough(k);
      Number(s[0], 1)
    else match ReadFrom(s[1..], k + 1)
      case Number(v, n) => Number(s[0] - 128 + 128 * v, n + 1)
      case TooLarge(n) => TooLarge(n + 1)
      case Short => Short
  }

  lemma {:induction false} RoomEnough(k: nat)
    requires k <= 9
    ensures Room(k) >= 2 && (k < 9 ==> Room(k) >= 256)
    decreases 9 - k
  {
    if k < 9 { RoomEnough(k + 1); }
  }

  /** `read_u64` */
  function ReadU64(s: seq<Byte>): (r: Read)
    ensures r.Number? ==> r.value < 0x1_0000_0000_0000_0000
    ensures !r.Short? ==> 1 <= r.used <= |s|
  {
    RoomIs64Bits();
    ReadFrom(s, 0)
  }

  lemma RoomIs64Bits()
    ensures Room(0) == 0x1_0000_0000_0000_0000
  {
    assert Room(7) == 128 * 128 * 2;
    assert Room(5) == 128 * 128 * Room(7);
    assert Room(3) == 128 * 128 * Room(5);
    assert Room(1) == 128 * 128 * Room(3);
  }

  /** A value that fits reads back, whatever follows it. */
  lemma {:induction false} ReadsBackFrom(v: nat, k: nat, rest: seq<Byte>)
    requires k <= 9 && v < Room(k)
    ensures ReadFrom(Leb(v) + rest, k) == Number(v, |Leb(v)|)
    decreases 9 - k
  {
    var s := Leb(v) + rest;
    if v >= 128 {
      assert s[1..] == Leb(v / 128) + rest;
      ReadsBackFrom(v / 128, k + 1, rest);
    }
  }

  lemma ReadsBack(v: U64, rest: seq<Byte>)
    ensures ReadU64(Leb(v) + rest) == Number(v, |Leb(v)|)
  {
    RoomIs64Bits();
    ReadsBackFrom(v, 0, rest);
  }

  lemma {:induction false} SkipStable(s: seq<Byte>, t: seq<Byte>)
    requires !SkipRest(s).Short?
    ensures SkipRest(s + t) == SkipRest(s)
  {
    if s[0] >= 128 {
      assert (s + t)[1..] == s[1..] + t;
      SkipStable(s[1..], t);
    }
  }

  /** Once a reader has made up its mind, more bytes do not change it. */
  lemma {:induction false} ReadStable(s: seq<Byte>, t: seq<Byte>, k: nat)
    requires k <= 9 && !ReadFrom(s, k).Short?
    ensures ReadFrom(s + t, k) == ReadFrom(s, k)
    decreases 9 - k
  {
    if k == 9 && s[0] > 1 {
      SkipStable(s, t);
    } else if s[0] >= 128 {
      assert (s + t)[1..] == s[1..] + t;
      ReadStable(s[1..], t, k + 1);
    }
  }

  /** The reader needs all the bytes it takes. */
  lemma ReadNeedsAll(s: seq<Byte>, j: nat)
    requires j <= |s|
    ensures ReadU64(s[..j]).Short? <==> ReadU64(s).Short? || j < ReadU64(s).used
    ensures !ReadU64(s[..j]).Short? ==> ReadU64(s[..j]) == ReadU64(s)
  {
    assert s == s[..j] + s[j..];
    if !ReadU64(s[..j]).Short? { ReadStable(s[..j], s[j..], 0); }
    else if !ReadU64(s).Short? && ReadU64(s).used <= j { ReadWithin(s, j, 0); }
  }

  lemma {:induction false} SkipWithin(s: seq<Byte>, j: nat)
    requires SkipRest(s).TooLarge? && SkipRest(s).used <= j <= |s|
    ensures SkipRest(s[..j]) == SkipRest(s)
  {
    if s[0] >= 128 {
      assert s[..j][1..] == s[1..][..j - 1];
      SkipWithin(s[1..], j - 1);
    }
  }

  lemma {:induction false} ReadWithin(s: seq<Byte>, j: nat, k: nat)
    requires k <= 9 && !ReadFrom(s, k).Short? && ReadFrom(s, k).used <= j <= |s|
    ensures ReadFrom(s[..j], k) == ReadFrom(s, k)
    decreases 9 - k
  {
    if k == 9 && s[0] > 1 {
      SkipWithin(s, j);
    } else if s[0] >= 128 {
      assert s[..j][1..] == s[1..][..j - 1];
      ReadWithin(s[1..], j - 1, k + 1);
    }
  }

  /** No other bytes of that length, and no shorter ones, read as the value. */
  lemma {:induction false} LebShortest(s: seq<Byte>, k: nat)
    requires k <= 9 && ReadFrom(s, k).Number?
    ensures var Number(v, n) := ReadFrom(s, k);
      n >= |Leb(v)| && (n == |Leb(v)| <==> s[..n] == Leb(v))
    decreases 9 - k
  {
    if s[0] >= 128 {
      LebShortest(s[1..], k + 1);
      var Number(w, m) := ReadFrom(s[1..], k + 1);
      var v := s[0] - 128 + 128 * w;
      assert v / 128 == w && v % 128 == s[0] - 128;
      if v < 128 {
        assert m + 1 > 1;
      } else {
        assert s[..m + 1] == [s[0]] + s[1..][..m];
        assert Leb(v) == [s[0]] + Leb(w);
        assert (s[..m + 1] == Leb(v)) ==> s[..m + 1][1..] == Leb(v)[1..];
      }
    }
  }

  lemma NothingRead()
    ensures ReadU64([]).Short?
  {
  }

  // ----- The asynchronous reader -----

  /** A byte stream, read from its front. */
  class Stream {
    var rest: seq<Byte>

    constructor (bytes: seq<Byte>)
      ensures rest == bytes
    {
      rest := bytes;
    }

    /** A read of one byte; nothing at the end of the stream. */
    method ReadByte() returns (b: Option<Byte>)
      modifies this
      ensures old(rest) == [] ==> b == None && rest == []
      ensures old(rest) != [] ==> b == Some(old(rest)[0]) && rest == old(rest)[1..]
    {
      if rest == [] { return None; }
      b := Some(rest[0]);
      rest := rest[1..];
    }

    /** `read_exact` */
    method ReadExact(n: nat) returns (b: Option<seq<Byte>>)
      modifies this
      ensures n <= |old(rest)| ==> b == Some(old(rest)[..n]) && rest == old(rest)[n..]
      ensures n > |old(rest)| ==> b == None && rest == []
    {
      if n > |rest| { rest := []; return None; }
      b := Some(rest[..n]);
      rest := rest[n..];
    }

    /** `read_u64`: the library's reader, which takes what it looked at. */
    method ReadU64Sync() returns (r: Read)
      modifies this
      ensures r == ReadU64(old(rest))
      ensures rest == if r.Short? then [] else old(rest)[r.used..]
    {
      r := ReadU64(rest);
      rest := if r.Short? then [] else rest[r.used..];
    }

    /** `read_u64_async`: start over on every byte, until the bytes so far are a
        number. It takes what the synchronous reader takes. */
    method ReadU64Async() returns (r: Read)
      modifies this
      ensures r == ReadU64(old(rest))
      ensures rest == if r.Short? then [] else old(rest)[r.used..]
    {
      hide *;
      var buf: seq<Byte> := [];
      ghost var whole := rest;
      NothingRead();
      while true
        invariant |buf| <= |whole| && buf == whole[..|buf|] && rest == whole[|buf|..]
        invariant ReadU64(buf).Short?
        decreases |rest|
      {
        var b := ReadByte();
        if b == None {
          assert buf == whole;
          return Short;
        }
        assert whole[..|buf| + 1] == whole[..|buf|] + [whole[|buf|]];
        ReadNeedsAll(whole, |buf|);
        buf := buf + [b.value];
        ReadNeedsAll(whole, |buf|);
        r := ReadU64(buf);
        if !r.Short? { return; }
      }
    }
  }
}
