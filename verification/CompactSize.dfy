/** Length prefixes of one, three, five or nine bytes. */
module CompactSize {
  import opened Wrappers
  import opened Bytes

  /** `writeCompactSize`; the last two branches of the 64 bit form truncate to 32 bits each. */
  function Enc(num: int): Option<seq<byte>> {
    if num < 0 || num > MAX_SAFE_INTEGER then None
    else if num < 0xfd then Some([num])
    else if num <= 0xffff then Some([0xfd] + LE(num, 2))
    else if num <= 0xffff_ffff then Some([0xfe] + LE(num, 4))
    else Some([0xff] + LE(num % 0x1_0000_0000, 4) + LE(num / 0x1_0000_0000, 4))
  }

  function Dec(s: seq<byte>): Parsed<nat> {
    if s == [] then Fail
    else if s[0] == 0xfd then DecUInt(s[1..], 2)
    else if s[0] == 0xfe then DecUInt(s[1..], 4)
    else if s[0] == 0xff then
      match DecUInt(s[1..], 4)
      case Fail => Fail
      case Done(lo, rest) =>
        match DecUInt(rest, 4)
        case Fail => Fail
        case Done(hi, rest') =>
          var num := hi * 0x1_0000_0000 + lo;
          if num > MAX_SAFE_INTEGER then Fail else Done(num, rest')
    else Done(s[0], s[1..])
  }

  function ByteLength(num: int): Option<nat> {
    if num < 0 || num > MAX_SAFE_INTEGER then None
    else Some(if num < 0xfd then 1 else if num <= 0xffff then 3 else if num <= 0xffff_ffff then 5 else 9)
  }

  /** A tag byte and a number of `k` bytes. */
  lemma Tagged(tag: byte, n: nat, k: nat, rest: seq<byte>)
    requires n < Pow256(k)
    ensures DecUInt(([tag] + LE(n, k) + rest)[1..], k) == Done(n, rest)
  {
    assert ([tag] + LE(n, k) + rest)[1..] == LE(n, k) + rest;
    UIntRoundTrip(n, k, rest);
  }

  lemma Tagged64(lo: nat, hi: nat, rest: seq<byte>)
    requires lo < 0x1_0000_0000 && hi < 0x1_0000_0000 && hi * 0x1_0000_0000 + lo <= MAX_SAFE_INTEGER
    ensures Dec([0xff] + LE(lo, 4) + LE(hi, 4) + rest) == Done(hi * 0x1_0000_0000 + lo, rest)
  {
    Pow256Values();
    var s := [0xff] + LE(lo, 4) + LE(hi, 4) + rest;
    Tagged(0xff, lo, 4, LE(hi, 4) + rest);
    assert s == [0xff] + LE(lo, 4) + (LE(hi, 4) + rest);
    UIntRoundTrip(hi, 4, rest);
  }

  lemma RoundTrip(n: nat, rest: seq<byte>)
    requires n <= MAX_SAFE_INTEGER
    ensures Dec(Enc(n).value + rest) == Done(n, rest)
  {
    Pow256Values();
    if n < 0xfd {
      assert ([n] + rest)[1..] == rest;
    } else if n <= 0xffff {
      Tagged(0xfd, n, 2, rest);
    } else if n <= 0xffff_ffff {
      Tagged(0xfe, n, 4, rest);
    } else {
      Tagged64(n % 0x1_0000_0000, n / 0x1_0000_0000, rest);
    }
  }

  /** Every number is also read from any longer form it fits into. */
  lemma ReadsTagged(tag: byte, k: nat, n: nat, rest: seq<byte>)
    requires (tag == 0xfd && k == 2) || (tag == 0xfe && k == 4)
    requires n < Pow256(k)
    ensures Dec([tag] + LE(n, k) + rest) == Done(n, rest)
  {
    Tagged(tag, n, k, rest);
  }

  lemma ReadsTagged64(n: nat, rest: seq<byte>)
    requires n <= MAX_SAFE_INTEGER
    ensures Dec([0xff] + LE(n % 0x1_0000_0000, 4) + LE(n / 0x1_0000_0000, 4) + rest) == Done(n, rest)
  {
    Tagged64(n % 0x1_0000_0000, n / 0x1_0000_0000, rest);
  }

  /** `byteLength` is the length of the encoding, and throws exactly when writing does. */
  lemma ByteLengthIsLength(num: int)
    ensures ByteLength(num).None? <==> Enc(num).None?
    ensures Enc(num).Some? ==> ByteLength(num).value == |Enc(num).value|
  {
  }

  /** The reader also takes longer forms than the writer makes. What it read is the writer's form exactly when it
      has the writer's length. */
  lemma ReadIsCanonicalIff(s: seq<byte>)
    requires Dec(s).Done?
    ensures var n := Dec(s).value; var k := |s| - |Dec(s).rest|;
      0 < k <= |s| && Dec(s).rest == s[k..] && n <= MAX_SAFE_INTEGER
      && (Enc(n) == Some(s[..k]) <==> ByteLength(n) == Some(k))
  {
    Pow256Values();
    if s[0] == 0xfd {
      ReadTagged(s, 2);
    } else if s[0] == 0xfe {
      ReadTagged(s, 4);
    } else if s[0] == 0xff {
      ReadTagged64(s);
    } else {
      assert s[..1] == [s[0]];
    }
    ByteLengthIsLength(Dec(s).value);
  }

  lemma ReadTagged(s: seq<byte>, k: nat)
    requires s != [] && DecUInt(s[1..], k).Done?
    ensures var r := DecUInt(s[1..], k);
      r.rest == s[k + 1..] && r.value < Pow256(k) && [s[0]] + LE(r.value, k) == s[..k + 1]
  {
    LEOfFromLE(s[1..][..k]);
    assert s[..k + 1] == [s[0]] + s[1..][..k];
  }

  lemma ReadTagged64(s: seq<byte>)
    requires s != [] && s[0] == 0xff && Dec(s).Done?
    ensures |s| >= 9 && Dec(s).rest == s[9..] && Dec(s).value <= MAX_SAFE_INTEGER
    ensures var n := Dec(s).value; s[..9] == [0xff] + LE(n % 0x1_0000_0000, 4) + LE(n / 0x1_0000_0000, 4)
  {
    Pow256Values();
    ReadTagged(s, 4);
    var t := s[4..];
    assert t[1..] == s[5..];
    ReadTagged(t, 4);
    var lo, hi := DecUInt(s[1..], 4).value, DecUInt(t[1..], 4).value;
    assert Dec(s).value == hi * 0x1_0000_0000 + lo;
    Split(lo, hi);
    assert s[..9] == s[..5] + t[..5][1..];
    assert t[..5][1..] == LE(hi, 4);
  }

  lemma Split(lo: nat, hi: nat)
    requires lo < 0x1_0000_0000
    ensures (hi * 0x1_0000_0000 + lo) % 0x1_0000_0000 == lo && (hi * 0x1_0000_0000 + lo) / 0x1_0000_0000 == hi
  {
  }

  method WriteTagged(tag: byte, n: nat, k: nat, buffer: SmartBuffer)
    requires buffer.Valid() && n < Pow256(k)
    modifies buffer`bytes
    ensures buffer.Valid() && buffer.bytes == old(buffer.bytes) + ([tag] + LE(n, k))
  {
    buffer.Write([tag]);
    var _ := buffer.WriteUInt(n, k);
  }

  method WriteTwoTagged(tag: byte, lo: nat, hi: nat, k: nat, buffer: SmartBuffer)
    requires buffer.Valid() && lo < Pow256(k) && hi < Pow256(k)
    modifies buffer`bytes
    ensures buffer.Valid() && buffer.bytes == old(buffer.bytes) + ([tag] + LE(lo, k) + LE(hi, k))
  {
    WriteTagged(tag, lo, k, buffer);
    var _ := buffer.WriteUInt(hi, k);
  }

  method Write(num: int, buffer: SmartBuffer) returns (ok: bool)
    requires buffer.Valid()
    modifies buffer`bytes
    ensures buffer.Valid() && ok == Enc(num).Some?
    ensures buffer.bytes == old(buffer.bytes) + if ok then Enc(num).value else []
  {
    Pow256Values();
    if num < 0 || num > MAX_SAFE_INTEGER {
      return false;
    }
    if num < 0xfd {
      buffer.Write([num]);
    } else if num <= 0xffff {
      WriteTagged(0xfd, num, 2, buffer);
    } else if num <= 0xffff_ffff {
      WriteTagged(0xfe, num, 4, buffer);
    } else {
      WriteTwoTagged(0xff, num % 0x1_0000_0000, num / 0x1_0000_0000, 4, buffer);
    }
    ok := true;
  }

  method Read(buffer: SmartBuffer) returns (r: Option<nat>)
    requires buffer.Valid()
    modifies buffer`readOffset
    ensures buffer.Valid()
    ensures match Dec(old(buffer.Rest()))
            case Fail => r == None
            case Done(v, rest) => r == Some(v) && buffer.Rest() == rest
  {
    ghost var s := buffer.Rest();
    r := buffer.ReadUInt(1);
    if r.None? {
      return;
    }
    assert s[..1] == [s[0]];
    FromLEOne(s[0]);
    match r.value
    case 0xfd => r := buffer.ReadUInt(2);
    case 0xfe => r := buffer.ReadUInt(4);
    case 0xff =>
      var lo := buffer.ReadUInt(4);
      if lo.None? {
        return None;
      }
      var hi := buffer.ReadUInt(4);
      if hi.None? {
        return None;
      }
      var num := hi.value * 0x1_0000_0000 + lo.value;
      r := if num > MAX_SAFE_INTEGER then None else Some(num);
    case _ =>
  }
}
