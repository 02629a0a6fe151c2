/** Composable formats. A codec writes a value, reads it back, and says what reading makes of a value that was
    written: the value itself, unless the format does not store all of it. */
module Composer {
  import opened Wrappers
  import opened Bytes
  import CompactSize

  datatype Codec<!T> = Codec(enc: T -> Option<seq<byte>>, dec: seq<byte> -> Parsed<T>, norm: T -> T)

  /** Reading a written `x`, followed by any bytes, gives `norm(x)` and leaves those bytes. */
  ghost predicate Law<T(!new)>(c: Codec<T>, x: T) {
    c.enc(x).Some? ==> forall rest :: c.dec(c.enc(x).value + rest) == Done(c.norm(x), rest)
  }

  function EncAll<T>(c: Codec<T>, xs: seq<T>): Option<seq<byte>> {
    if xs == [] then Some([]) else Then(c.enc(xs[0]), EncAll(c, xs[1..]))
  }

  function DecN<T>(c: Codec<T>, n: nat, s: seq<byte>): Parsed<seq<T>>
    decreases n
  {
    if n == 0 then Done([], s)
    else match c.dec(s)
      case Fail => Fail
      case Done(x, rest) =>
        match DecN(c, n - 1, rest)
        case Fail => Fail
        case Done(xs, rest') => Done([x] + xs, rest')
  }

  function NormAll<T>(c: Codec<T>, xs: seq<T>): (r: seq<T>)
    ensures |r| == |xs| && forall i :: 0 <= i < |xs| ==> r[i] == c.norm(xs[i])
  {
    seq(|xs|, i requires 0 <= i < |xs| => c.norm(xs[i]))
  }

  lemma ThenSplit(a: Option<seq<byte>>, b: Option<seq<byte>>, rest: seq<byte>)
    requires Then(a, b).Some?
    ensures Then(a, b).value + rest == a.value + (b.value + rest)
  {
  }

  lemma {:induction false} AllRoundTrip<T(!new)>(c: Codec<T>, xs: seq<T>, rest: seq<byte>)
    requires EncAll(c, xs).Some? && forall i :: 0 <= i < |xs| ==> Law(c, xs[i])
    ensures DecN(c, |xs|, EncAll(c, xs).value + rest) == Done(NormAll(c, xs), rest)
    decreases |xs|
  {
    if xs == [] {
      assert [] + rest == rest;
    } else {
      assert Law(c, xs[0]);
      var tail := EncAll(c, xs[1..]);
      ThenSplit(c.enc(xs[0]), tail, rest);
      AllRoundTrip(c, xs[1..], rest);
      assert NormAll(c, xs) == [c.norm(xs[0])] + NormAll(c, xs[1..]);
    }
  }

  /** An array that reads back as itself starts with an element that does, and so does the rest of it. */
  lemma HeadReadsBack<T(!new)>(c: Codec<T>, xs: seq<T>, rest: seq<byte>, left: seq<byte>) returns (tail: seq<byte>)
    requires xs != [] && EncAll(c, xs).Some? && DecN(c, |xs|, EncAll(c, xs).value + rest) == Done(xs, left)
    ensures EncAll(c, xs[1..]).Some? && tail == EncAll(c, xs[1..]).value + rest && c.enc(xs[0]).Some?
    ensures c.dec(c.enc(xs[0]).value + tail).Done? && c.dec(c.enc(xs[0]).value + tail).value == xs[0]
    ensures c.dec(c.enc(xs[0]).value + tail).rest == tail ==> DecN(c, |xs[1..]|, tail) == Done(xs[1..], left)
  {
    tail := EncAll(c, xs[1..]).value + rest;
    ThenSplit(c.enc(xs[0]), EncAll(c, xs[1..]), rest);
    var d := c.dec(c.enc(xs[0]).value + tail);
    var e := DecN(c, |xs| - 1, d.rest);
    assert xs == [d.value] + e.value;
  }

  ghost predicate ReadsBack<T(!new)>(c: Codec<T>, x: T, rest: seq<byte>) {
    c.enc(x).Some? && c.dec(c.enc(x).value + rest).Done? && c.dec(c.enc(x).value + rest).value == x
  }

  /** What holds of every element that reads back holds of the elements of an array that does. */
  lemma {:induction false} AllReadBack<T(!new)>(c: Codec<T>, p: T -> bool, xs: seq<T>, rest: seq<byte>,
                                                left: seq<byte>)
    requires forall x, r :: ReadsBack(c, x, r) ==> p(x) && c.dec(c.enc(x).value + r).rest == r
    requires EncAll(c, xs).Some? && DecN(c, |xs|, EncAll(c, xs).value + rest) == Done(xs, left)
    ensures forall i :: 0 <= i < |xs| ==> p(xs[i])
    decreases |xs|
  {
    if xs != [] {
      var tail := HeadReadsBack(c, xs, rest, left);
      assert ReadsBack(c, xs[0], tail);
      AllReadBack(c, p, xs[1..], rest, left);
    }
  }

  /** An array with its length in front. */
  function EncCounted<T>(c: Codec<T>, xs: seq<T>): Option<seq<byte>> {
    Then(CompactSize.Enc(|xs|), EncAll(c, xs))
  }

  function DecCounted<T>(c: Codec<T>, s: seq<byte>): Parsed<seq<T>> {
    match CompactSize.Dec(s)
    case Fail => Fail
    case Done(n, rest) => DecN(c, n, rest)
  }

  lemma CountedRoundTrip<T(!new)>(c: Codec<T>, xs: seq<T>, rest: seq<byte>)
    requires EncCounted(c, xs).Some? && forall i :: 0 <= i < |xs| ==> Law(c, xs[i])
    ensures DecCounted(c, EncCounted(c, xs).value + rest) == Done(NormAll(c, xs), rest)
  {
    ThenSplit(CompactSize.Enc(|xs|), EncAll(c, xs), rest);
    CompactSize.RoundTrip(|xs|, EncAll(c, xs).value + rest);
    AllRoundTrip(c, xs, rest);
  }

  /** The first codes of two equal byte strings are codes of values that read the same, and what follows them is
      equal too: a codec with the law splits concatenations in one way only. */
  lemma SplitsOnce<T(!new)>(c: Codec<T>, x: T, y: T, r: seq<byte>, q: seq<byte>)
    requires Law(c, x) && Law(c, y) && c.enc(x).Some? && c.enc(y).Some?
    requires c.enc(x).value + r == c.enc(y).value + q
    ensures c.norm(x) == c.norm(y) && r == q
  {
    assert c.dec(c.enc(x).value + r) == Done(c.norm(x), r);
    assert c.dec(c.enc(y).value + q) == Done(c.norm(y), q);
  }

  /** So a concatenation of codes, none of them empty, determines how many there are and what each one says. */
  lemma {:induction false} AllSplitOnce<T(!new)>(c: Codec<T>, xs: seq<T>, ys: seq<T>)
    requires forall i :: 0 <= i < |xs| ==> Law(c, xs[i]) && c.enc(xs[i]) != Some([])
    requires forall i :: 0 <= i < |ys| ==> Law(c, ys[i]) && c.enc(ys[i]) != Some([])
    requires EncAll(c, xs).Some? && EncAll(c, xs) == EncAll(c, ys)
    ensures NormAll(c, xs) == NormAll(c, ys)
    decreases |xs|
  {
    if xs != [] && ys != [] {
      SplitsOnce(c, xs[0], ys[0], EncAll(c, xs[1..]).value, EncAll(c, ys[1..]).value);
      AllSplitOnce(c, xs[1..], ys[1..]);
      assert NormAll(c, xs) == [c.norm(xs[0])] + NormAll(c, xs[1..]);
      assert NormAll(c, ys) == [c.norm(ys[0])] + NormAll(c, ys[1..]);
    }
  }

  // Fields.

  /** `bigNumberUInt64`: the low 32 bits, then the high ones. A number out of range makes one of the writes throw. */
  function EncUInt64(n: int): Option<seq<byte>> {
    if 0 <= n < 0x1_0000_0000_0000_0000 then Some(LE(n % 0x1_0000_0000, 4) + LE(n / 0x1_0000_0000, 4)) else None
  }

  function DecUInt64(s: seq<byte>): Parsed<nat> {
    match DecUInt(s, 4)
    case Fail => Fail
    case Done(lo, rest) =>
      match DecUInt(rest, 4)
      case Fail => Fail
      case Done(hi, rest') => Done(hi * 0x1_0000_0000 + lo, rest')
  }

  lemma UInt64RoundTrip(n: int, rest: seq<byte>)
    requires EncUInt64(n).Some?
    ensures DecUInt64(EncUInt64(n).value + rest) == Done(n, rest)
  {
    WordsRoundTrip(n % 0x1_0000_0000, n / 0x1_0000_0000, rest);
  }

  lemma WordsRoundTrip(lo: nat, hi: nat, rest: seq<byte>)
    requires lo < 0x1_0000_0000 && hi < 0x1_0000_0000
    ensures DecUInt64(LE(lo, 4) + LE(hi, 4) + rest) == Done(hi * 0x1_0000_0000 + lo, rest)
  {
    Pow256Values();
    assert LE(lo, 4) + LE(hi, 4) + rest == LE(lo, 4) + (LE(hi, 4) + rest);
    UIntRoundTrip(lo, 4, LE(hi, 4) + rest);
    UIntRoundTrip(hi, 4, rest);
  }

  const MAX_INT64 := 9223372036854775807

  /** `maxPriceAsBigNumber`: the whole part and the hundred-millionths, but the largest price as itself twice. More
      than eight decimals are refused. */
  function EncMaxPrice(price: real): Option<seq<byte>> {
    var n := (price * 100000000.0).Floor;
    if n as real != price * 100000000.0 then None
    else if price == MAX_INT64 as real then Then(EncUInt64(MAX_INT64), EncUInt64(MAX_INT64))
    else if n < 0 then None
    else Then(EncUInt64(n / 100000000), EncUInt64(n % 100000000))
  }

  function PriceOf(whole: nat, fraction: nat): real {
    if whole == MAX_INT64 && fraction == MAX_INT64 then MAX_INT64 as real
      else whole as real + fraction as real / 100000000.0
  }

  function DecMaxPrice(s: seq<byte>): Parsed<real> {
    match DecUInt64(s)
    case Fail => Fail
    case Done(whole, rest) =>
      match DecUInt64(rest)
      case Fail => Fail
      case Done(fraction, rest') => Done(PriceOf(whole, fraction), rest')
  }

  lemma TwoUInt64s(m: int, n: int, rest: seq<byte>)
    requires Then(EncUInt64(m), EncUInt64(n)).Some?
    ensures DecMaxPrice(Then(EncUInt64(m), EncUInt64(n)).value + rest) == Done(PriceOf(m, n), rest)
  {
    ThenSplit(EncUInt64(m), EncUInt64(n), rest);
    UInt64RoundTrip(m, EncUInt64(n).value + rest);
    UInt64RoundTrip(n, rest);
  }

  /** A price that can be written reads back as itself. */
  lemma MaxPriceRoundTrip(price: real, rest: seq<byte>)
    requires EncMaxPrice(price).Some?
    ensures DecMaxPrice(EncMaxPrice(price).value + rest) == Done(price, rest)
  {
    var n := (price * 100000000.0).Floor;
    if price == MAX_INT64 as real {
      TwoUInt64s(MAX_INT64, MAX_INT64, rest);
    } else {
      var q, r := n / 100000000, n % 100000000;
      TwoUInt64s(q, r, rest);
      assert n as real == 100000000.0 * q as real + r as real;
    }
  }

  /** What is written for a price that was read, by its number of hundred-millionths. */
  lemma EncOfRead(whole: nat, fraction: nat, n: nat)
    requires n == whole * 100000000 + fraction && !(whole == MAX_INT64 && fraction == MAX_INT64)
    ensures EncMaxPrice(PriceOf(whole, fraction))
         == if n == MAX_INT64 * 100000000 then Then(EncUInt64(MAX_INT64), EncUInt64(MAX_INT64))
            else Then(EncUInt64(n / 100000000), EncUInt64(n % 100000000))
  {
    var price := PriceOf(whole, fraction);
    assert price * 100000000.0 == n as real;
    assert (price * 100000000.0).Floor == n;
    assert price == MAX_INT64 as real <==> n == MAX_INT64 * 100000000;
  }

  lemma SameTwoNumbersIff(m: nat, k: nat, whole: nat, fraction: nat)
    requires EncUInt64(whole).Some? && EncUInt64(fraction).Some?
    ensures Then(EncUInt64(m), EncUInt64(k)) == Then(EncUInt64(whole), EncUInt64(fraction)) <==>
      m == whole && k == fraction
  {
    if Then(EncUInt64(m), EncUInt64(k)) == Then(EncUInt64(whole), EncUInt64(fraction)) {
      TwoNumbersAreRead(m, k, whole, fraction);
    }
  }

  /** Not every two numbers are the form of the price they read as: exactly those are whose second one is below one
      whole, but for the largest price, which has a form of its own. */
  lemma MaxPriceIsCanonicalIff(whole: nat, fraction: nat)
    requires EncUInt64(whole).Some? && EncUInt64(fraction).Some?
    ensures EncMaxPrice(PriceOf(whole, fraction)) == Then(EncUInt64(whole), EncUInt64(fraction))
       <==> (whole == MAX_INT64 && fraction == MAX_INT64)
            || (fraction < 100000000 && !(whole == MAX_INT64 && fraction == 0))
  {
    if !(whole == MAX_INT64 && fraction == MAX_INT64) {
      var n := whole * 100000000 + fraction;
      EncOfRead(whole, fraction, n);
      var q, r := n / 100000000, n % 100000000;
      OneWhole(whole, fraction, n, q, r);
      if n == MAX_INT64 * 100000000 {
        SameTwoNumbersIff(MAX_INT64, MAX_INT64, whole, fraction);
      } else {
        SameTwoNumbersIff(q, r, whole, fraction);
      }
    }
  }

  lemma OneWhole(whole: nat, fraction: nat, n: nat, q: nat, r: nat)
    requires n == whole * 100000000 + fraction && q == n / 100000000 && r == n % 100000000
    ensures q == whole && r == fraction <==> fraction < 100000000
    ensures fraction < 100000000 ==> (n == MAX_INT64 * 100000000 <==> whole == MAX_INT64 && fraction == 0)
  {
  }

  lemma TwoNumbersAreRead(m: nat, k: nat, whole: nat, fraction: nat)
    requires Then(EncUInt64(m), EncUInt64(k)).Some?
      && Then(EncUInt64(m), EncUInt64(k)) == Then(EncUInt64(whole), EncUInt64(fraction))
    ensures m == whole && k == fraction
  {
    UInt64RoundTrip(m, EncUInt64(k).value);
    UInt64RoundTrip(whole, EncUInt64(fraction).value);
    UInt64RoundTrip(k, []);
    UInt64RoundTrip(fraction, []);
    assert EncUInt64(k).value + [] == EncUInt64(k).value && EncUInt64(fraction).value + [] == EncUInt64(fraction).value;
  }

  /** `hex(n)`: a byte string of fixed length, in its own order. */
  function EncHex(h: seq<byte>, n: nat): Option<seq<byte>> {
    if |h| == n then Some(h) else None
  }

  /** `hexBEBufferLE(n)`: a byte string of fixed length, reversed. */
  function EncHexReversed(h: seq<byte>, n: nat): Option<seq<byte>> {
    if |h| == n then Some(Reversed(h)) else None
  }

  function DecHexReversed(s: seq<byte>, n: nat): Parsed<seq<byte>> {
    match DecBytes(s, n)
    case Fail => Fail
    case Done(b, rest) => Done(Reversed(b), rest)
  }

  lemma HexReversedRoundTrip(h: seq<byte>, n: nat, rest: seq<byte>)
    requires EncHexReversed(h, n).Some?
    ensures DecHexReversed(EncHexReversed(h, n).value + rest, n) == Done(h, rest)
  {
    BytesRoundTrip(Reversed(h), rest);
    ReversedTwice(h);
  }

  /** `compactSizeHex`, scripts and witness scripts: a byte string with its length in front. */
  function EncSized(b: seq<byte>): Option<seq<byte>> {
    Then(CompactSize.Enc(|b|), Some(b))
  }

  function DecSized(s: seq<byte>): Parsed<seq<byte>> {
    match CompactSize.Dec(s)
    case Fail => Fail
    case Done(n, rest) => DecBytes(rest, n)
  }

  lemma SizedRoundTrip(b: seq<byte>, rest: seq<byte>)
    requires EncSized(b).Some?
    ensures DecSized(EncSized(b).value + rest) == Done(b, rest)
  {
    ThenSplit(CompactSize.Enc(|b|), Some(b), rest);
    CompactSize.RoundTrip(|b|, b + rest);
    BytesRoundTrip(b, rest);
  }
}
