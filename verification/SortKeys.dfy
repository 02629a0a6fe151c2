/** Fixed-width hexadecimal sort keys, the lexicographic order they are stored in, and the bounds of a range query. */
module SortKeys {
  import opened Wrappers

  const MAX_HEIGHT := 4294967295

  /** Byte by byte, and a proper prefix comes first. */
  predicate Less(a: string, b: string)
    decreases |a|
  {
    b != [] && (a == [] || a[0] < b[0] || (a[0] == b[0] && Less(a[1..], b[1..])))
  }

  function Digit(d: nat): char
    requires d < 16
  {
    "0123456789abcdef"[d]
  }

  function Hex(n: nat): string {
    (if n < 16 then [] else Hex(n / 16)) + [Digit(n % 16)]
  }

  /** `toString(16)`. */
  function ToString16(n: int): string {
    if n < 0 then "-" + Hex(-n) else Hex(n)
  }

  function Repeat(c: char, n: nat): (s: string)
    ensures |s| == n && forall i :: 0 <= i < n ==> s[i] == c
  {
    seq(n, i => c)
  }

  function PadStart(s: string, width: nat): string {
    if |s| >= width then s else Repeat('0', width - |s|) + s
  }

  /** `encodeHeight`, and `encodeVoutIndex` does the same: only numbers that are too large are refused. */
  function EncodeHeight(height: int): Option<string> {
    if height > MAX_HEIGHT then None else Some(PadStart(ToString16(height), 8))
  }

  function Key(height: string, txid: string): string {
    height + "-" + txid
  }

  predicate IsDigits(s: string) {
    forall i :: 0 <= i < |s| ==> '0' <= s[i] <= '9' || 'a' <= s[i] <= 'f'
  }

  // Fixed width.

  function Pow16(k: nat): nat {
    if k == 0 then 1 else 16 * Pow16(k - 1)
  }

  function Fixed(n: nat, k: nat): (s: string)
    ensures |s| == k
  {
    if k == 0 then [] else Fixed(n / 16, k - 1) + [Digit(n % 16)]
  }

  lemma DigitIsDigit(d: nat)
    requires d < 16
    ensures '0' <= Digit(d) <= '9' || 'a' <= Digit(d) <= 'f'
  {
  }

  lemma DigitsAreOrdered(d: nat, e: nat)
    requires d < 16 && e < 16
    ensures Digit(d) < Digit(e) <==> d < e
    ensures Digit(d) == Digit(e) <==> d == e
  {
  }

  lemma {:induction false} FixedIsDigits(n: nat, k: nat)
    ensures IsDigits(Fixed(n, k))
    decreases k
  {
    if k > 0 {
      FixedIsDigits(n / 16, k - 1);
      DigitIsDigit(n % 16);
    }
  }

  lemma {:induction false} FixedZero(k: nat)
    ensures Fixed(0, k) == Repeat('0', k)
    decreases k
  {
    if k > 0 {
      FixedZero(k - 1);
      assert Repeat('0', k) == Repeat('0', k - 1) + ['0'];
    }
  }

  lemma PadSnoc(s: string, c: char, k: nat)
    requires |s| < k
    ensures PadStart(s + [c], k) == PadStart(s, k - 1) + [c]
  {
  }

  /** Padding gives a fixed width. */
  lemma {:induction false} PaddedIsFixed(n: nat, k: nat)
    requires k > 0 && n < Pow16(k)
    ensures |Hex(n)| <= k && PadStart(Hex(n), k) == Fixed(n, k)
    decreases k
  {
    if n < 16 {
      FixedZero(k - 1);
      assert Hex(n) == [Digit(n)];
    } else {
      assert k > 1;
      PaddedIsFixed(n / 16, k - 1);
      PadSnoc(Hex(n / 16), Digit(n % 16), k);
    }
  }

  // Order.

  /** Behind different beginnings of one length, the rest does not matter; behind equal ones only the rest does. */
  lemma {:induction false} LessByParts(p: string, s: string, q: string, t: string)
    requires |p| == |q|
    ensures Less(p + s, q + t) <==> Less(p, q) || (p == q && Less(s, t))
    decreases |p|
  {
    if p == [] {
      assert p + s == s && q + t == t;
    } else {
      assert (p + s)[1..] == p[1..] + s && (q + t)[1..] == q[1..] + t;
      LessByParts(p[1..], s, q[1..], t);
      assert p == [p[0]] + p[1..] && q == [q[0]] + q[1..];
    }
  }

  lemma LessOfOne(a: char, b: char)
    ensures Less([a], [b]) <==> a < b
  {
  }

  /** Numeric order is the order of the digits. */
  lemma {:induction false} FixedIsOrdered(n: nat, m: nat, k: nat)
    requires n < Pow16(k) && m < Pow16(k)
    ensures Less(Fixed(n, k), Fixed(m, k)) <==> n < m
    ensures Fixed(n, k) == Fixed(m, k) <==> n == m
    decreases k
  {
    if k > 0 {
      FixedIsOrdered(n / 16, m / 16, k - 1);
      DigitsAreOrdered(n % 16, m % 16);
      LessByParts(Fixed(n / 16, k - 1), [Digit(n % 16)], Fixed(m / 16, k - 1), [Digit(m % 16)]);
      LessOfOne(Digit(n % 16), Digit(m % 16));
      FixedSplits(Fixed(n / 16, k - 1), Digit(n % 16), Fixed(m / 16, k - 1), Digit(m % 16));
    }
  }

  lemma FixedSplits(p: string, a: char, q: string, b: char)
    requires |p| == |q|
    ensures p + [a] == q + [b] <==> p == q && a == b
  {
    assert (p + [a])[..|p|] == p && (q + [b])[..|q|] == q;
    assert (p + [a])[|p|] == a && (q + [b])[|q|] == b;
  }

  lemma Pow16Values()
    ensures Pow16(7) == 0x1000_0000 && Pow16(8) == MAX_HEIGHT + 1
  {
    assert Pow16(7) == 16 * 16 * 16 * 16 * Pow16(3);
    assert Pow16(3) == 16 * 16 * 16;
  }

  /** The minus sign comes before every digit, so a negative number comes before every other one. */
  lemma {:induction false} MinusComesFirst(k: nat, rest: string, q: string)
    requires IsDigits(q) && |q| > k
    ensures Less(Repeat('0', k) + "-" + rest, q) && Repeat('0', k) + "-" + rest != q
    decreases k
  {
    var p := Repeat('0', k) + "-" + rest;
    if k > 0 {
      assert p[1..] == Repeat('0', k - 1) + "-" + rest;
      MinusComesFirst(k - 1, rest, q[1..]);
    }
  }

  lemma NegativeIsBelow(n: int, h: nat)
    requires -0x1000_0000 < n < 0 && h <= MAX_HEIGHT
    ensures |EncodeHeight(n).value| == 8 && |EncodeHeight(h).value| == 8
    ensures Less(EncodeHeight(n).value, EncodeHeight(h).value) && EncodeHeight(n).value != EncodeHeight(h).value
  {
    Pow16Values();
    PaddedIsFixed(-n, 7);
    PaddedIsFixed(h, 8);
    FixedIsDigits(h, 8);
    MinusIsPadded(Hex(-n));
    MinusComesFirst(7 - |Hex(-n)|, Hex(-n), Fixed(h, 8));
  }

  lemma MinusIsPadded(digits: string)
    requires |digits| <= 7
    ensures PadStart("-" + digits, 8) == Repeat('0', 7 - |digits|) + "-" + digits
  {
  }

  lemma {:induction false} LessIsOneWay(a: string, b: string)
    ensures !(Less(a, b) && Less(b, a)) && !Less(a, a)
    decreases |a|
  {
    if a != [] && b != [] {
      LessIsOneWay(a[1..], b[1..]);
    }
    if a != [] {
      LessIsOneWay(a[1..], a[1..]);
    }
  }

  /** Heights are ordered by their encodings, also against the negative number that a lower bound can be. */
  lemma HeightsAreOrdered(n: int, h: nat)
    requires -0x1000_0000 < n <= MAX_HEIGHT && h <= MAX_HEIGHT
    ensures |EncodeHeight(n).value| == |EncodeHeight(h).value| == 8
    ensures Less(EncodeHeight(n).value, EncodeHeight(h).value) <==> n < h
    ensures Less(EncodeHeight(h).value, EncodeHeight(n).value) <==> h < n
    ensures EncodeHeight(n) == EncodeHeight(h) <==> n == h
  {
    if n < 0 {
      NegativeIsBelow(n, h);
      LessIsOneWay(EncodeHeight(n).value, EncodeHeight(h).value);
    } else {
      Pow16Values();
      PaddedIsFixed(n, 8);
      PaddedIsFixed(h, 8);
      FixedIsOrdered(n, h, 8);
      FixedIsOrdered(h, n, 8);
    }
  }

  /** Keys are ordered by height, and by transaction within a height. */
  lemma KeysAreOrdered(n: int, x: string, h: nat, y: string)
    requires -0x1000_0000 < n <= MAX_HEIGHT && h <= MAX_HEIGHT
    ensures Less(Key(EncodeHeight(n).value, x), Key(EncodeHeight(h).value, y)) <==> n < h || (n == h && Less(x, y))
    ensures Less(Key(EncodeHeight(h).value, y), Key(EncodeHeight(n).value, x)) <==> h < n || (n == h && Less(y, x))
  {
    var a, b := EncodeHeight(n).value, EncodeHeight(h).value;
    HeightsAreOrdered(n, h);
    LessByParts(a, "-" + x, b, "-" + y);
    LessByParts(b, "-" + y, a, "-" + x);
    assert ("-" + x)[1..] == x && ("-" + y)[1..] == y;
    assert Key(a, x) == a + ("-" + x) && Key(b, y) == b + ("-" + y);
  }

  // The range of an auction.

  lemma {:induction false} AboveZeros(x: string, n: nat)
    requires IsDigits(x) && |x| == n
    ensures Less(Repeat('0', n), x) <==> x != Repeat('0', n)
    decreases n
  {
    if n > 0 {
      assert Repeat('0', n)[1..] == Repeat('0', n - 1);
      AboveZeros(x[1..], n - 1);
      assert x == [x[0]] + x[1..] && Repeat('0', n) == ['0'] + Repeat('0', n - 1);
    }
  }

  lemma {:induction false} BelowFs(x: string, n: nat)
    requires IsDigits(x) && |x| == n
    ensures Less(x, Repeat('f', n)) <==> x != Repeat('f', n)
    decreases n
  {
    if n > 0 {
      assert Repeat('f', n)[1..] == Repeat('f', n - 1);
      BelowFs(x[1..], n - 1);
      assert x == [x[0]] + x[1..] && Repeat('f', n) == ['f'] + Repeat('f', n - 1);
    }
  }

  /** What the bounds of a liquidation height select, if both can be encoded. */
  predicate Selects(height: int, expiry: nat, h: nat, txid: string)
    requires height <= MAX_HEIGHT && h <= MAX_HEIGHT
  {
    var lt := Key(EncodeHeight(height).value, Repeat('f', 64));
    var gt := Key(EncodeHeight(height - expiry).value, Repeat('0', 64));
    var key := Key(EncodeHeight(h).value, txid);
    Less(gt, key) && Less(key, lt)
  }

  lemma BelowTheUpperBound(height: int, h: nat, txid: string)
    requires -0x1000_0000 < height <= MAX_HEIGHT && h <= MAX_HEIGHT && |txid| == 64 && IsDigits(txid)
    ensures Less(Key(EncodeHeight(h).value, txid), Key(EncodeHeight(height).value, Repeat('f', 64)))
       <==> h <= height && !(h == height && txid == Repeat('f', 64))
  {
    KeysAreOrdered(height, Repeat('f', 64), h, txid);
    BelowFs(txid, 64);
  }

  lemma AboveTheLowerBound(low: int, h: nat, txid: string)
    requires -0x1000_0000 < low <= MAX_HEIGHT && h <= MAX_HEIGHT && |txid| == 64 && IsDigits(txid)
    ensures Less(Key(EncodeHeight(low).value, Repeat('0', 64)), Key(EncodeHeight(h).value, txid))
       <==> low <= h && !(h == low && txid == Repeat('0', 64))
  {
    KeysAreOrdered(low, Repeat('0', 64), h, txid);
    AboveZeros(txid, 64);
  }

  /** Exactly the heights from `height - expiry` to `height`, but for the two extreme transaction ids at the ends; also
      when the lower bound is negative. */
  lemma RangeTheorem(height: int, expiry: nat, h: nat, txid: string)
    requires expiry - 0x1000_0000 < height <= MAX_HEIGHT && h <= MAX_HEIGHT && |txid| == 64 && IsDigits(txid)
    ensures Selects(height, expiry, h, txid) <==>
      && height - expiry <= h <= height
      && !(h == height - expiry && txid == Repeat('0', 64))
      && !(h == height && txid == Repeat('f', 64))
  {
    BelowTheUpperBound(height, h, txid);
    AboveTheLowerBound(height - expiry, h, txid);
  }
}
