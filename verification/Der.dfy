/** DER integers and signatures. The framing of two integers into a signature is that of the section "DER encoding
    reference" of BIP 66. */
module Der {
  import opened Wrappers
  import opened Bytes

  /** Without its leading zero bytes. */
  function Trim(b: seq<byte>): (t: seq<byte>)
    ensures |t| <= |b| && (t != [] ==> t[0] != 0)
  {
    if b != [] && b[0] == 0 then Trim(b[1..]) else b
  }

  function To(b: seq<byte>): seq<byte> {
    var t := Trim(b);
    if t == [] then [0] else if t[0] >= 0x80 then [0] + t else t
  }

  /** Without one leading zero byte. */
  function Stripped(der: seq<byte>): seq<byte> {
    if der != [] && der[0] == 0 then der[1..] else der
  }

  /** Copied to the end of 32 zero bytes; what does not fit is cut off. */
  function From(der: seq<byte>): (b: seq<byte>)
    ensures |b| == 32
  {
    var d := Stripped(der);
    if |d| <= 32 then Zeros(32 - |d|) + d else d[..32]
  }

  method ToDer(buffer: seq<byte>) returns (der: seq<byte>)
    ensures der == To(buffer)
  {
    var i := 0;
    while i < |buffer| && buffer[i] == 0
      invariant i <= |buffer| && Trim(buffer) == Trim(buffer[i..])
    {
      assert buffer[i..][1..] == buffer[i + 1..];
      i := i + 1;
    }
    if i == |buffer| {
      return [0];
    }
    var rest := buffer[i..];
    if rest[0] >= 0x80 {
      return [0] + rest;
    }
    der := rest;
  }

  // The value.

  /** Big-endian. */
  function Value(b: seq<byte>): nat {
    if b == [] then 0 else 256 * Value(b[..|b| - 1]) + b[|b| - 1]
  }

  /** A non-negative number in as few bytes as can be: the sign bit is clear, and a leading zero is there only
      for that. */
  predicate Minimal(der: seq<byte>) {
    |der| > 0 && der[0] < 0x80 && (|der| > 1 && der[0] == 0 ==> der[1] >= 0x80)
  }

  lemma {:induction false} TrimPads(b: seq<byte>)
    ensures b == Zeros(|b| - |Trim(b)|) + Trim(b)
    decreases |b|
  {
    if b != [] && b[0] == 0 {
      TrimPads(b[1..]);
      var k := |b[1..]| - |Trim(b)|;
      assert b == [0] + b[1..];
      assert Zeros(k + 1) == [0] + Zeros(k);
    } else {
      assert Zeros(0) + b == b;
    }
  }

  lemma StrippedOfTo(b: seq<byte>)
    ensures Stripped(To(b)) == Trim(b)
  {
    var t := Trim(b);
    if t != [] && t[0] >= 0x80 {
      assert ([0] + t)[1..] == t;
    }
  }

  /** From undoes to, for every 32 bytes, zeros included. */
  lemma FromUndoesTo(b: seq<byte>)
    requires |b| == 32
    ensures From(To(b)) == b
  {
    StrippedOfTo(b);
    TrimPads(b);
  }

  lemma {:induction false} ValueOfPadded(n: nat, t: seq<byte>)
    ensures Value(Zeros(n) + t) == Value(t)
    decreases n + |t|
  {
    var s := Zeros(n) + t;
    if t != [] {
      assert s[..|s| - 1] == Zeros(n) + t[..|t| - 1];
      ValueOfPadded(n, t[..|t| - 1]);
    } else if n > 0 {
      assert s[..|s| - 1] == Zeros(n - 1) + t;
      ValueOfPadded(n - 1, t);
    }
  }

  /** Without leading zeros a number has one form. */
  lemma {:induction false} TrimmedIsUnique(s: seq<byte>, t: seq<byte>)
    requires Value(s) == Value(t) && (s != [] ==> s[0] != 0) && (t != [] ==> t[0] != 0)
    ensures s == t
    decreases |s| + |t|
  {
    if s == [] || t == [] {
      if s != [] { TrimmedIsPositive(s); }
      if t != [] { TrimmedIsPositive(t); }
    } else {
      LastByte(Value(s[..|s| - 1]), s[|s| - 1], Value(t[..|t| - 1]), t[|t| - 1]);
      TrimmedIsUnique(s[..|s| - 1], t[..|t| - 1]);
      assert s == s[..|s| - 1] + [s[|s| - 1]] && t == t[..|t| - 1] + [t[|t| - 1]];
    }
  }

  lemma LastByte(p: nat, a: byte, q: nat, b: byte)
    requires 256 * p + a == 256 * q + b
    ensures p == q && a == b
  {
  }

  lemma {:induction false} TrimmedIsPositive(s: seq<byte>)
    requires s != [] && s[0] != 0
    ensures Value(s) > 0
    decreases |s|
  {
    if |s| > 1 {
      TrimmedIsPositive(s[..|s| - 1]);
    }
  }

  lemma MinimalIsStripped(d: seq<byte>)
    requires Minimal(d)
    ensures Value(Stripped(d)) == Value(d) && (Stripped(d) != [] ==> Stripped(d)[0] != 0)
  {
    if d[0] == 0 {
      assert d == Zeros(1) + d[1..];
      ValueOfPadded(1, d[1..]);
    }
  }

  /** What is written is minimal, has the value of what was given, and is the only minimal form of it. */
  lemma ToIsTheMinimalForm(b: seq<byte>, d: seq<byte>)
    ensures Minimal(To(b)) && Value(To(b)) == Value(b)
    ensures Minimal(d) && Value(d) == Value(b) ==> d == To(b)
  {
    var t := Trim(b);
    TrimPads(b);
    ValueOfPadded(|b| - |t|, t);
    StrippedOfTo(b);
    MinimalIsStripped(To(b));
    if Minimal(d) && Value(d) == Value(b) {
      MinimalIsUnique(d, To(b));
    }
  }

  lemma MinimalIsUnique(d: seq<byte>, e: seq<byte>)
    requires Minimal(d) && Minimal(e) && Value(d) == Value(e)
    ensures d == e
  {
    MinimalIsStripped(d);
    MinimalIsStripped(e);
    TrimmedIsUnique(Stripped(d), Stripped(e));
    SameStripped(d, e);
  }

  lemma SameStripped(d: seq<byte>, e: seq<byte>)
    requires Minimal(d) && Minimal(e) && Stripped(d) == Stripped(e)
    ensures d == e
  {
    assert d[0] == 0 ==> d == [0] + d[1..];
    assert e[0] == 0 ==> e == [0] + e[1..];
  }

  /** The other way round it is exact for just those integers that fit into 32 bytes. */
  lemma ToUndoesFromIff(d: seq<byte>)
    requires Minimal(d)
    ensures To(From(d)) == d <==> |Stripped(d)| <= 32
  {
    MinimalIsStripped(d);
    StrippedOfTo(From(d));
    if |Stripped(d)| <= 32 {
      ValueOfPadded(32 - |Stripped(d)|, Stripped(d));
      ToIsTheMinimalForm(From(d), d);
    }
  }

  // Signatures.

  /** Two minimal integers behind tags and lengths. */
  function Frame(r: seq<byte>, s: seq<byte>): Option<seq<byte>> {
    if Minimal(r) && Minimal(s) && |r| <= 33 && |s| <= 33
    then Some([0x30, 4 + |r| + |s|, 0x02, |r|] + r + [0x02, |s|] + s)
    else None
  }

  /** The checks of BIP 66, without the hash type that follows a signature there. */
  function Unframe(d: seq<byte>): Option<(seq<byte>, seq<byte>)> {
    if |d| < 8 || |d| > 72 || d[0] != 0x30 || d[1] != |d| - 2 || d[2] != 0x02 then None
    else
      var n := d[3];
      if n == 0 || 5 + n >= |d| || d[4 + n] != 0x02 then None
      else
        var m := d[5 + n];
        if m == 0 || 6 + n + m != |d| then None
        else
          var r, s := d[4..4 + n], d[6 + n..];
          if Minimal(r) && Minimal(s) then Some((r, s)) else None
  }

  function Encode(signature: seq<byte>): Option<seq<byte>>
    requires |signature| == 64
  {
    Frame(To(signature[..32]), To(signature[32..]))
  }

  function Decode(der: seq<byte>): Option<seq<byte>> {
    var u := Unframe(der);
    if u.None? then None else Some(From(u.value.0) + From(u.value.1))
  }

  lemma UnframeUndoesFrame(r: seq<byte>, s: seq<byte>)
    requires Frame(r, s).Some?
    ensures Unframe(Frame(r, s).value) == Some((r, s))
  {
    var d := Frame(r, s).value;
    var n := |r|;
    assert d[3] == n && d[4 + n] == 0x02 && d[5 + n] == |s|;
    assert d[4..4 + n] == r && d[6 + n..] == s;
  }

  lemma UnframedIsFramed(d: seq<byte>)
    requires Unframe(d).Some?
    ensures var (r, s) := Unframe(d).value;
      Minimal(r) && Minimal(s) && d == [0x30, 4 + |r| + |s|, 0x02, |r|] + r + [0x02, |s|] + s
  {
    var n := d[3];
    assert d == d[..4] + d[4..4 + n] + d[4 + n..6 + n] + d[6 + n..];
    assert d[..4] == [0x30, |d| - 2, 0x02, n];
    assert d[4 + n..6 + n] == [0x02, d[5 + n]];
  }

  /** Every signature of 64 bytes is encoded, and decoding undoes it. */
  lemma DecodeUndoesEncode(signature: seq<byte>)
    requires |signature| == 64
    ensures Encode(signature).Some? && Decode(Encode(signature).value) == Some(signature)
  {
    var r, s := signature[..32], signature[32..];
    ToIsTheMinimalForm(r, []);
    ToIsTheMinimalForm(s, []);
    UnframeUndoesFrame(To(r), To(s));
    FromUndoesTo(r);
    FromUndoesTo(s);
    assert signature == r + s;
  }

  /** A signature that is accepted encodes to itself again exactly when both of its integers fit into 32 bytes; longer
      ones are accepted as well, and cut. */
  lemma EncodeUndoesDecodeIff(der: seq<byte>)
    requires Decode(der).Some?
    ensures var (r, s) := Unframe(der).value;
      Encode(Decode(der).value) == Some(der) <==> |Stripped(r)| <= 32 && |Stripped(s)| <= 32
  {
    var (r, s) := Unframe(der).value;
    UnframedIsFramed(der);
    ToUndoesFromIff(r);
    ToUndoesFromIff(s);
    var signature := Decode(der).value;
    assert signature[..32] == From(r) && signature[32..] == From(s);
    if Encode(signature) == Some(der) {
      UnframeUndoesFrame(To(From(r)), To(From(s)));
    }
  }

  /** A signature as BIP 66 lays it out, read by position: the first integer is the one behind the first length, and the
      second the one that ends it. */
  predicate HoldsIntegers(der: seq<byte>, r: nat, s: nat) {
    && |der| >= 8 && der[0] == 0x30 && der[1] == |der| - 2
    && var n := der[3];
      && 6 + n <= |der| && der[2] == 0x02 && der[4 + n] == 0x02 && der[5 + n] == |der| - 6 - n
      && Minimal(der[4..4 + n]) && Minimal(der[6 + n..])
      && Value(der[4..4 + n]) == r && Value(der[6 + n..]) == s
  }

  /** The first integer has the value of the first 32 bytes, the second that of the others. */
  lemma EncodedHoldsIntegers(signature: seq<byte>)
    requires |signature| == 64
    ensures Encode(signature).Some?
    ensures HoldsIntegers(Encode(signature).value, Value(signature[..32]), Value(signature[32..]))
  {
    var r, s := To(signature[..32]), To(signature[32..]);
    DecodeUndoesEncode(signature);
    ToIsTheMinimalForm(signature[..32], []);
    ToIsTheMinimalForm(signature[32..], []);
    var d := Encode(signature).value;
    UnframeUndoesFrame(r, s);
    assert d[4..4 + |r|] == r && d[6 + |r|..] == s;
  }

  lemma ValueOfFrom(d: seq<byte>)
    requires Minimal(d) && |Stripped(d)| <= 32
    ensures Value(From(d)) == Value(d)
  {
    MinimalIsStripped(d);
    ValueOfPadded(32 - |Stripped(d)|, Stripped(d));
  }

  /** And what is accepted is such a layout; each half of what is decoded has the value of its integer, if that fits. */
  lemma DecodedHoldsIntegers(der: seq<byte>)
    requires Decode(der).Some?
    ensures var (r, s) := Unframe(der).value; var signature := Decode(der).value;
      && HoldsIntegers(der, Value(r), Value(s)) && |signature| == 64
      && (|Stripped(r)| <= 32 ==> Value(signature[..32]) == Value(r))
      && (|Stripped(s)| <= 32 ==> Value(signature[32..]) == Value(s))
      && (|Stripped(r)| > 32 ==> signature[..32] == Stripped(r)[..32])
      && (|Stripped(s)| > 32 ==> signature[32..] == Stripped(s)[..32])
  {
    var (r, s) := Unframe(der).value;
    UnframedIsFramed(der);
    var signature := Decode(der).value;
    assert signature[..32] == From(r) && signature[32..] == From(s);
    if |Stripped(r)| <= 32 {
      ValueOfFrom(r);
    }
    if |Stripped(s)| <= 32 {
      ValueOfFrom(s);
    }
  }
}
