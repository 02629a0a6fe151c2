/** Variable-length integers, most significant base-128 digit first. */
module VarInt {
  import opened Wrappers
  import opened Bytes

  /** The digits before the last one: one is subtracted from each, and each has its high bit set. */
  function Leading(m: nat): seq<byte>
    decreases m
  {
    if m <= 127 then [m + 128] else Leading(m / 128 - 1) + [m % 128 + 128]
  }

  function Digits(n: nat): seq<byte> {
    if n <= 127 then [n] else Leading(n / 128 - 1) + [n % 128]
  }

  /** A negative number is not refused: the low seven bits of its magnitude are written. */
  function Enc(n: int): Option<seq<byte>> {
    if n > MAX_SAFE_INTEGER then None else if n < 0 then Some([-n % 128]) else Some(Digits(n))
  }

  function DecFrom(s: seq<byte>, n: nat): Parsed<nat>
    decreases |s|
  {
    if s == [] then Fail
    else
      var n' := n * 128 + s[0] % 128;
      if s[0] >= 128 then DecFrom(s[1..], n' + 1)
      else if n' > MAX_SAFE_INTEGER then Fail
      else Done(n', s[1..])
  }

  function Dec(s: seq<byte>): Parsed<nat> {
    DecFrom(s, 0)
  }

  lemma DecCons(b: byte, s: seq<byte>, n: nat)
    ensures DecFrom([b] + s, n)
         == if b >= 128 then DecFrom(s, n * 128 + (b - 128) + 1)
            else if n * 128 + b > MAX_SAFE_INTEGER then Fail else Done(n * 128 + b, s)
  {
    assert ([b] + s)[1..] == s;
    assert b >= 128 ==> b % 128 == b - 128;
  }

  lemma {:induction false} DecLeading(m: nat, s: seq<byte>)
    ensures DecFrom(Leading(m) + s, 0) == DecFrom(s, m + 1)
    decreases m
  {
    if m <= 127 {
      DecCons(m + 128, s, 0);
    } else {
      var t := [m % 128 + 128] + s;
      assert Leading(m) + s == Leading(m / 128 - 1) + t;
      DecLeading(m / 128 - 1, t);
      DecCons(m % 128 + 128, s, m / 128);
    }
  }

  /** Reading undoes writing, whatever bytes follow. */
  lemma RoundTrip(n: nat, rest: seq<byte>)
    requires n <= MAX_SAFE_INTEGER
    ensures Dec(Enc(n).value + rest) == Done(n, rest)
  {
    if n <= 127 {
      DecCons(n, rest, 0);
    } else {
      var t := [n % 128] + rest;
      assert Digits(n) + rest == Leading(n / 128 - 1) + t;
      DecLeading(n / 128 - 1, t);
      DecCons(n % 128, rest, n / 128);
    }
  }

  /** What is written reads back as itself exactly if it is not negative. */
  lemma RoundTripsIff(n: int, rest: seq<byte>)
    requires Enc(n).Some?
    ensures Dec(Enc(n).value + rest) == Done(n, rest) <==> n >= 0
  {
    if n >= 0 {
      RoundTrip(n, rest);
    } else {
      DecCons(-n % 128, rest, 0);
    }
  }

  /** All bytes but the last have the high bit set. */
  predicate WellFormed(s: seq<byte>) {
    |s| > 0 && s[|s| - 1] < 128 && forall i :: 0 <= i < |s| - 1 ==> s[i] >= 128
  }

  /** The number the leading digits stand for, plus one. */
  function Folded(c: seq<byte>): nat {
    if c == [] then 0 else Folded(c[..|c| - 1]) * 128 + c[|c| - 1] % 128 + 1
  }

  lemma {:induction false} DecDigits(c: seq<byte>, s: seq<byte>)
    requires forall i :: 0 <= i < |c| ==> c[i] >= 128
    ensures DecFrom(c + s, 0) == DecFrom(s, Folded(c))
    decreases |c|
  {
    if c == [] {
      assert c + s == s;
    } else {
      var t := [c[|c| - 1]] + s;
      assert c + s == c[..|c| - 1] + t;
      DecDigits(c[..|c| - 1], t);
      DecCons(c[|c| - 1], s, Folded(c[..|c| - 1]));
    }
  }

  lemma {:induction false} LeadingOfFolded(c: seq<byte>)
    requires c != [] && forall i :: 0 <= i < |c| ==> c[i] >= 128
    ensures Folded(c) > 0 && Leading(Folded(c) - 1) == c
    decreases |c|
  {
    var d, b := c[..|c| - 1], c[|c| - 1];
    assert c == d + [b];
    if d != [] {
      LeadingOfFolded(d);
      var m := Folded(c) - 1;
      assert m == Folded(d) * 128 + (b - 128);
      assert m / 128 == Folded(d) && m % 128 == b - 128;
    }
  }

  /** Writing undoes reading: every well-formed byte sequence in range is the encoding of the number it reads as. */
  lemma WriteUndoesRead(s: seq<byte>, rest: seq<byte>)
    requires WellFormed(s) && Dec(s + rest).Done?
    ensures Dec(s + rest).rest == rest && Enc(Dec(s + rest).value) == Some(s)
  {
    var c, b := s[..|s| - 1], s[|s| - 1];
    assert s == c + [b];
    var f, t := Folded(c), [b] + rest;
    assert s + rest == c + t;
    DecDigits(c, t);
    LastDigit(b, rest, f, f * 128 + b);
    if c == [] {
      OneDigit(b);
    } else {
      DigitsOfFolded(c, b, f, f * 128 + b);
    }
  }

  lemma DigitsOfFolded(c: seq<byte>, b: byte, f: nat, n: nat)
    requires c != [] && f == Folded(c) && b < 128 && (forall i :: 0 <= i < |c| ==> c[i] >= 128) && n == f * 128 + b
    ensures Digits(n) == c + [b]
  {
    LeadingOfFolded(c);
    DigitsOf(f, b, n);
  }

  lemma LastDigit(b: byte, rest: seq<byte>, f: nat, n: nat)
    requires b < 128 && n == f * 128 + b
    ensures DecFrom([b] + rest, f) == if n > MAX_SAFE_INTEGER then Fail else Done(n, rest)
  {
    DecCons(b, rest, f);
  }

  lemma OneDigit(b: byte)
    requires b < 128
    ensures Digits(b) == [b]
  {
  }

  lemma DigitsOf(f: nat, b: byte, n: nat)
    requires f > 0 && b < 128 && n == f * 128 + b
    ensures Digits(n) == Leading(f - 1) + [b]
  {
    assert n / 128 == f && n % 128 == b;
  }

  /** What is read from any bytes is a well-formed sequence: no byte sequence reads in a second way. */
  lemma {:induction false} ReadsWellFormed(s: seq<byte>, n: nat) returns (k: nat)
    requires DecFrom(s, n).Done?
    ensures k <= |s| && WellFormed(s[..k]) && s[k..] == DecFrom(s, n).rest
    decreases |s|
  {
    if s[0] >= 128 {
      var j := ReadsWellFormed(s[1..], n * 128 + s[0] % 128 + 1);
      k := j + 1;
      assert s[..k] == [s[0]] + s[1..][..j] && s[k..] == s[1..][j..];
    } else {
      k := 1;
    }
  }

  predicate LexLess(a: seq<byte>, b: seq<byte>) {
    |a| == |b| && exists i :: 0 <= i < |a| && a[..i] == b[..i] && a[i] < b[i]
  }

  /** Shorter first, then byte by byte. */
  predicate ShortLex(a: seq<byte>, b: seq<byte>) {
    |a| < |b| || LexLess(a, b)
  }

  lemma ShortLexSnoc(a: seq<byte>, b: seq<byte>, x: byte, y: byte)
    requires ShortLex(a, b) || (a == b && x < y)
    ensures ShortLex(a + [x], b + [y])
  {
    if a == b {
      assert (a + [x])[..|a|] == (b + [y])[..|a|];
    } else if |a| == |b| {
      var i :| 0 <= i < |a| && a[..i] == b[..i] && a[i] < b[i];
      assert (a + [x])[..i] == a[..i] && (b + [y])[..i] == b[..i];
    }
  }

  lemma {:induction false} LeadingIsMonotone(n: nat, m: nat)
    requires n < m
    ensures ShortLex(Leading(n), Leading(m))
    decreases m
  {
    if m <= 127 {
      assert Leading(n)[..0] == Leading(m)[..0];
    } else if n <= 127 {
      assert |Leading(m / 128 - 1)| >= 1;
    } else {
      if n / 128 < m / 128 {
        LeadingIsMonotone(n / 128 - 1, m / 128 - 1);
      }
      ShortLexSnoc(Leading(n / 128 - 1), Leading(m / 128 - 1), n % 128 + 128, m % 128 + 128);
    }
  }

  lemma DigitsIsMonotone(n: nat, m: nat)
    requires n < m
    ensures ShortLex(Digits(n), Digits(m))
  {
    if m <= 127 {
      assert Digits(n)[..0] == Digits(m)[..0];
    } else if n <= 127 {
      assert |Leading(m / 128 - 1)| >= 1;
    } else {
      if n / 128 < m / 128 {
        LeadingIsMonotone(n / 128 - 1, m / 128 - 1);
      }
      ShortLexSnoc(Leading(n / 128 - 1), Leading(m / 128 - 1), n % 128, m % 128);
    }
  }

  lemma ShortLexIsAsymmetric(a: seq<byte>, b: seq<byte>)
    requires ShortLex(a, b)
    ensures !ShortLex(b, a) && a != b
  {
    if |a| == |b| {
      var i :| 0 <= i < |a| && a[..i] == b[..i] && a[i] < b[i];
      assert forall j :: 0 <= j < i ==> a[..i][j] == a[j] && b[..i][j] == b[j];
      assert forall j :: i < j < |a| ==> a[..j][i] == a[i] && b[..j][i] == b[i];
    }
  }

  /** Numeric order is shortlex order of the encodings. */
  lemma OrderIsShortLex(n: nat, m: nat)
    ensures n < m <==> ShortLex(Digits(n), Digits(m))
  {
    if n < m {
      DigitsIsMonotone(n, m);
    } else if m < n {
      DigitsIsMonotone(m, n);
      ShortLexIsAsymmetric(Digits(m), Digits(n));
    } else if ShortLex(Digits(n), Digits(n)) {
      ShortLexIsAsymmetric(Digits(n), Digits(n));
    }
  }

  /** The least number whose encoding takes `k` bytes. */
  function First(k: nat): nat {
    if k <= 1 then 0 else 128 * (First(k - 1) + 1)
  }

  lemma {:induction false} LeadingLength(m: nat)
    ensures var k := |Leading(m)|; k >= 1 && First(k) <= m < First(k + 1)
    decreases m
  {
    if m <= 127 {
      assert First(2) == 128;
    } else {
      LeadingLength(m / 128 - 1);
    }
  }

  /** An encoding takes `k` bytes exactly from `First(k)` up to `First(k + 1)`; so 0-127 take one byte, 128-16511
      two and 16512-2113663 three, as documented, and no safe integer takes more than eight. */
  lemma LengthBreakpoints(n: nat)
    ensures First(|Digits(n)|) <= n < First(|Digits(n)| + 1)
    ensures First(2) == 128 && First(3) == 16512 && First(4) == 2113664
    ensures n <= MAX_SAFE_INTEGER ==> |Digits(n)| <= 8
  {
    if n > 127 {
      LeadingLength(n / 128 - 1);
    }
    assert First(5) == 270549120 && First(6) == 34630287488;
    assert First(7) == 4432676798592 && First(8) == 567382630219904 && First(9) == 72624976668147840;
    if |Digits(n)| >= 9 {
      FirstIsMonotone(9, |Digits(n)|);
    }
  }

  lemma {:induction false} FirstIsMonotone(j: nat, k: nat)
    requires j <= k
    ensures First(j) <= First(k)
    decreases k
  {
    if j < k {
      FirstIsMonotone(j, k - 1);
    }
  }

  /** The digits that the first loop of `writeVarInt` has not produced yet. */
  function Unwritten(n: int, len: nat): seq<byte> {
    if n < 0 then [-n % 128] else if len == 0 then Digits(n) else Leading(n)
  }

  function Low7(n: int): byte {
    if n < 0 then -n % 128 else n % 128
  }

  lemma UnwrittenStep(n: int, len: nat, tmp: seq<byte>)
    requires n >= 0 || len == 0
    ensures var digit: byte := Low7(n) + if len > 0 then 0x80 else 0;
      Unwritten(n, len) + Reversed(tmp)
      == if n <= 0x7f then Reversed(tmp + [digit]) else Unwritten(n / 128 - 1, len + 1) + Reversed(tmp + [digit])
  {
    var digit: byte := Low7(n) + if len > 0 then 0x80 else 0;
    ReversedAppend(tmp, [digit]);
    assert Reversed([digit]) == [digit];
    if n > 0x7f {
      var a, r := Leading(n / 128 - 1), Reversed(tmp);
      assert (a + [digit]) + r == a + ([digit] + r);
    }
  }

  /** `writeVarInt`: the digits are produced last one first, then written in reverse. */
  method Write(value: int, buffer: SmartBuffer) returns (ok: bool)
    requires buffer.Valid()
    modifies buffer`bytes
    ensures buffer.Valid() && ok == Enc(value).Some?
    ensures buffer.bytes == old(buffer.bytes) + if ok then Enc(value).value else []
  {
    var n := value;
    if n > MAX_SAFE_INTEGER {
      return false;
    }
    var tmp: seq<byte> := [];
    var len := 0;
    while true
      invariant |tmp| == len && buffer.Valid() && buffer.bytes == old(buffer.bytes)
      invariant (n >= 0 || len == 0) && Unwritten(n, len) + Reversed(tmp) == Enc(value).value
      decreases n
    {
      var digit: byte := Low7(n) + if len > 0 then 0x80 else 0;
      UnwrittenStep(n, len, tmp);
      tmp := tmp + [digit];
      if n <= 0x7f {
        break;
      }
      n := n / 128 - 1;
      len := len + 1;
    }
    WriteReversed(tmp, len, buffer);
    ok := true;
  }

  /** The second loop of `writeVarInt`: from index `last` down to 0. */
  method WriteReversed(tmp: seq<byte>, last: nat, buffer: SmartBuffer)
    requires buffer.Valid() && |tmp| == last + 1
    modifies buffer`bytes
    ensures buffer.Valid() && buffer.bytes == old(buffer.bytes) + Reversed(tmp)
  {
    var len: nat := last;
    assert tmp[..len + 1] == tmp;
    while true
      invariant len < |tmp| && buffer.Valid()
      invariant buffer.bytes + Reversed(tmp[..len + 1]) == old(buffer.bytes) + Reversed(tmp)
      decreases len
    {
      assert tmp[..len + 1] == tmp[..len] + [tmp[len]];
      ReversedAppend(tmp[..len], [tmp[len]]);
      assert Reversed([tmp[len]]) == [tmp[len]];
      ghost var before, r := buffer.bytes, Reversed(tmp[..len]);
      assert before + ([tmp[len]] + r) == (before + [tmp[len]]) + r;
      buffer.Write([tmp[len]]);
      if len == 0 {
        break;
      }
      len := len - 1;
    }
  }

  /** `readVarInt`. */
  method Read(buffer: SmartBuffer) returns (r: Option<nat>)
    requires buffer.Valid()
    modifies buffer`readOffset
    ensures buffer.Valid()
    ensures match Dec(old(buffer.Rest()))
            case Fail => r == None
            case Done(v, rest) => r == Some(v) && buffer.Rest() == rest
  {
    var n: nat := 0;
    while true
      invariant buffer.Valid()
      invariant DecFrom(buffer.Rest(), n) == Dec(old(buffer.Rest()))
      decreases |buffer.bytes| - buffer.readOffset
    {
      ghost var rest := buffer.Rest();
      var b := buffer.ReadUInt(1);
      if b.None? {
        return None;
      }
      assert rest == [rest[0]] + rest[1..] && rest[..1] == [rest[0]];
      FromLEOne(rest[0]);
      DecCons(rest[0], rest[1..], n);
      n := n * 128 + b.value % 128;
      if b.value >= 0x80 {
        n := n + 1;
      } else if n > MAX_SAFE_INTEGER {
        return None;
      } else {
        return Some(n);
      }
    }
  }
}
