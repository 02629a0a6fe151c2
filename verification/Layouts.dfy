/** Where the bytes of a block and of its transactions are: the formats once more, by position and digit by digit. What
    the composers write is exactly what is laid out so. */
module Layouts {
  import opened Wrappers
  import opened Bytes
  import opened Composer
  import opened Transactions
  import opened Blocks
  import CompactSize
  import VarInt

  predicate BytesAt(s: seq<byte>, at: nat, b: seq<byte>) {
    at + |b| <= |s| && s[at..at + |b|] == b
  }

  /** The digits of a number to base 256, the lowest one first. */
  function Digit(n: nat, i: nat): byte
    requires i < 8
  {
    if i == 0 then n % 256
    else if i == 1 then n / 0x100 % 256
    else if i == 2 then n / 0x1_0000 % 256
    else if i == 3 then n / 0x100_0000 % 256
    else if i == 4 then n / 0x1_0000_0000 % 256
    else if i == 5 then n / 0x100_0000_0000 % 256
    else if i == 6 then n / 0x1_0000_0000_0000 % 256
    else n / 0x100_0000_0000_0000 % 256
  }

  /** `k` bytes, the lowest digit to base 256 first. */
  predicate NumberAt(s: seq<byte>, at: nat, k: nat, n: int)
    requires k <= 8
  {
    && 0 <= n < Pow256(k) && at + k <= |s|
    && forall i: nat :: i < k ==> s[at + i] == Digit(n, i)
  }

  /** The last byte first. */
  predicate Backwards(s: seq<byte>, at: nat, b: seq<byte>) {
    at + |b| <= |s| && forall i :: 0 <= i < |b| ==> b[i] == s[at + |b| - 1 - i]
  }

  predicate HashAt(s: seq<byte>, at: nat, h: seq<byte>) {
    |h| == 32 && Backwards(s, at, h)
  }

  function PrefixLength(n: nat): nat {
    if n < 0xfd then 1 else if n <= 0xffff then 3 else if n <= 0xffff_ffff then 5 else 9
  }

  /** A length in one byte, or in two, four or eight bytes behind a tag. */
  predicate SizeAt(s: seq<byte>, at: nat, n: nat) {
    && at < |s| && n <= MAX_SAFE_INTEGER
    && if n < 0xfd then s[at] == n
       else if n <= 0xffff then s[at] == 0xfd && NumberAt(s, at + 1, 2, n)
       else if n <= 0xffff_ffff then s[at] == 0xfe && NumberAt(s, at + 1, 4, n)
       else s[at] == 0xff && NumberAt(s, at + 1, 8, n)
  }

  predicate SizedAt(s: seq<byte>, at: nat, b: seq<byte>) {
    SizeAt(s, at, |b|) && BytesAt(s, at + PrefixLength(|b|), b)
  }

  function SizedLength(b: seq<byte>): nat {
    PrefixLength(|b|) + |b|
  }

  /** One element right behind the other. */
  predicate ListAt<T>(holds: (seq<byte>, nat, T) -> bool, length: T -> nat, s: seq<byte>, at: nat, xs: seq<T>)
    decreases |xs|
  {
    if xs == [] then at <= |s| else holds(s, at, xs[0]) && ListAt(holds, length, s, at + length(xs[0]), xs[1..])
  }

  function ListLength<T>(length: T -> nat, xs: seq<T>): nat {
    if xs == [] then 0 else length(xs[0]) + ListLength(length, xs[1..])
  }

  /** The number of elements in front of them. */
  predicate CountedAt<T>(holds: (seq<byte>, nat, T) -> bool, length: T -> nat, s: seq<byte>, at: nat, xs: seq<T>) {
    SizeAt(s, at, |xs|) && ListAt(holds, length, s, at + PrefixLength(|xs|), xs)
  }

  function CountedLength<T>(length: T -> nat, xs: seq<T>): nat {
    PrefixLength(|xs|) + ListLength(length, xs)
  }

  // Transactions and blocks.

  predicate VinAt(s: seq<byte>, at: nat, v: Vin) {
    && HashAt(s, at, v.txid) && NumberAt(s, at + 32, 4, v.index) && SizedAt(s, at + 36, v.script)
    && NumberAt(s, at + 36 + SizedLength(v.script), 4, v.sequence)
  }

  function VinLength(v: Vin): nat {
    40 + SizedLength(v.script)
  }

  /** The token id is there from version 4 on. */
  predicate VoutAt(version: int, s: seq<byte>, at: nat, v: Vout) {
    && NumberAt(s, at, 8, v.value) && SizedAt(s, at + 8, v.script)
    && (version >= 4 ==>
          v.tokenId <= MAX_SAFE_INTEGER && BytesAt(s, at + 8 + SizedLength(v.script), VarInt.Digits(v.tokenId)))
  }

  function VoutLength(version: int, v: Vout): nat {
    8 + SizedLength(v.script) + if version >= 4 then |VarInt.Digits(v.tokenId)| else 0
  }

  predicate VinsAt(s: seq<byte>, at: nat, vin: seq<Vin>) {
    CountedAt(VinAt, VinLength, s, at, vin)
  }

  function VinsLength(vin: seq<Vin>): nat {
    CountedLength(VinLength, vin)
  }

  function OutputAt(version: int): (seq<byte>, nat, Vout) -> bool {
    (s: seq<byte>, at: nat, v: Vout) => VoutAt(version, s, at, v)
  }

  function OutputLength(version: int): Vout -> nat {
    v => VoutLength(version, v)
  }

  predicate VoutsAt(version: int, s: seq<byte>, at: nat, vout: seq<Vout>) {
    CountedAt(OutputAt(version), OutputLength(version), s, at, vout)
  }

  function VoutsLength(version: int, vout: seq<Vout>): nat {
    CountedLength(OutputLength(version), vout)
  }

  predicate WitnessAt(s: seq<byte>, at: nat, w: Witness) {
    CountedAt(SizedAt, SizedLength, s, at, w.scripts)
  }

  function WitnessLength(w: Witness): nat {
    CountedLength(SizedLength, w.scripts)
  }

  /** Version, inputs, outputs and lock time. */
  predicate LegacyAt(s: seq<byte>, at: nat, t: Tx) {
    var outputs := at + 4 + VinsLength(t.vin);
    && NumberAt(s, at, 4, t.version) && VinsAt(s, at + 4, t.vin) && VoutsAt(t.version, s, outputs, t.vout)
    && NumberAt(s, outputs + VoutsLength(t.version, t.vout), 4, t.lockTime)
  }

  function LegacyLength(t: Tx): nat {
    8 + VinsLength(t.vin) + VoutsLength(t.version, t.vout)
  }

  /** The witnesses, whose number is not written, are between the outputs and the lock time. */
  predicate WitnessedAt(s: seq<byte>, at: nat, t: Tx)
    requires t.SegWit?
  {
    var outputs := at + VinsLength(t.vin);
    var witnesses := outputs + VoutsLength(t.version, t.vout);
    && VinsAt(s, at, t.vin) && VoutsAt(t.version, s, outputs, t.vout)
    && ListAt(WitnessAt, WitnessLength, s, witnesses, t.witnesses)
    && NumberAt(s, witnesses + ListLength(WitnessLength, t.witnesses), 4, t.lockTime)
  }

  /** The marker is the fifth byte and the flag the sixth. */
  predicate SegWitAt(s: seq<byte>, at: nat, t: Tx)
    requires t.SegWit?
  {
    && NumberAt(s, at, 4, t.version) && at + 6 <= |s| && s[at + 4] == t.marker && s[at + 5] == t.flag
    && WitnessedAt(s, at + 6, t)
  }

  predicate TxAt(s: seq<byte>, at: nat, t: Tx) {
    if t.SegWit? && t.marker == 0 then SegWitAt(s, at, t) else LegacyAt(s, at, t)
  }

  function TxLength(t: Tx): nat {
    LegacyLength(t) + if t.SegWit? && t.marker == 0 then 2 + ListLength(WitnessLength, t.witnesses) else 0
  }

  predicate HeaderAt(s: seq<byte>, at: nat, h: Header) {
    && NumberAt(s, at, 4, h.version) && HashAt(s, at + 4, h.hashPrevBlock) && HashAt(s, at + 36, h.hashMerkleRoot)
    && NumberAt(s, at + 68, 4, h.time) && NumberAt(s, at + 72, 4, h.bits) && HashAt(s, at + 76, h.stakeModifier)
    && NumberAt(s, at + 108, 8, h.height) && NumberAt(s, at + 116, 8, h.mintedBlocks)
    && SizedAt(s, at + 124, h.signature)
  }

  function HeaderLength(h: Header): nat {
    124 + SizedLength(h.signature)
  }

  predicate BlockAt(s: seq<byte>, at: nat, b: Block) {
    HeaderAt(s, at, b.header) && CountedAt(TxAt, TxLength, s, at + HeaderLength(b.header), b.transactions)
  }

  function BlockLength(b: Block): nat {
    HeaderLength(b.header) + CountedLength(TxLength, b.transactions)
  }

  // What the composers write. `k` is the length of what is written, if anything is.

  predicate CodeAt(e: Option<seq<byte>>, s: seq<byte>, at: nat) {
    e.Some? && BytesAt(s, at, e.value)
  }

  predicate HasLength(e: Option<seq<byte>>, k: nat) {
    e.Some? ==> |e.value| == k
  }

  lemma ThenAt(a: Option<seq<byte>>, b: Option<seq<byte>>, s: seq<byte>, at: nat, k: nat)
    requires HasLength(a, k)
    ensures CodeAt(Then(a, b), s, at) <==> CodeAt(a, s, at) && CodeAt(b, s, at + k)
  {
    if a.Some? && b.Some? {
      var c := a.value + b.value;
      assert c[..k] == a.value && c[k..] == b.value;
      if BytesAt(s, at, c) {
        assert s[at..at + k] == s[at..at + |c|][..k] && s[at + k..at + |c|] == s[at..at + |c|][k..];
      }
      if BytesAt(s, at, a.value) && BytesAt(s, at + k, b.value) {
        assert s[at..at + |c|] == s[at..at + k] + s[at + k..at + k + |b.value|];
      }
    }
  }

  /** Four parts, each of the length that separates its place from the next. */
  lemma FourAt(a: Option<seq<byte>>, b: Option<seq<byte>>, c: Option<seq<byte>>, d: Option<seq<byte>>, s: seq<byte>,
               p: nat, q: nat, r: nat, t: nat, end: nat)
    requires p <= q <= r <= t <= end
    requires HasLength(a, q - p) && HasLength(b, r - q) && HasLength(c, t - r) && HasLength(d, end - t)
    ensures CodeAt(Then(a, Then(b, Then(c, d))), s, p) <==>
      CodeAt(a, s, p) && CodeAt(b, s, q) && CodeAt(c, s, r) && CodeAt(d, s, t)
    ensures HasLength(Then(a, Then(b, Then(c, d))), end - p)
  {
    ThenAt(a, Then(b, Then(c, d)), s, p, q - p);
    ThenAt(b, Then(c, d), s, q, r - q);
    ThenAt(c, d, s, r, t - r);
  }

  /** And if that is what `holds` says of the four parts, it says what the whole is. */
  lemma FourIff(e: Option<seq<byte>>, holds: bool, a: Option<seq<byte>>, b: Option<seq<byte>>, c: Option<seq<byte>>,
                d: Option<seq<byte>>, s: seq<byte>, p: nat, q: nat, r: nat, t: nat, end: nat,
                first: bool, second: bool, third: bool, fourth: bool)
    requires e == Then(a, Then(b, Then(c, d))) && holds == (first && second && third && fourth)
    requires p <= q <= r <= t <= end
    requires HasLength(a, q - p) && HasLength(b, r - q) && HasLength(c, t - r) && HasLength(d, end - t)
    requires CodeAt(a, s, p) == first && CodeAt(b, s, q) == second && CodeAt(c, s, r) == third
    requires CodeAt(d, s, t) == fourth
    ensures CodeAt(e, s, p) == holds && HasLength(e, end - p)
  {
    FourAt(a, b, c, d, s, p, q, r, t, end);
  }

  lemma TwoIff(e: Option<seq<byte>>, holds: bool, a: Option<seq<byte>>, b: Option<seq<byte>>, s: seq<byte>,
               p: nat, q: nat, end: nat, first: bool, second: bool)
    requires e == Then(a, b) && holds == (first && second) && p <= q <= end
    requires HasLength(a, q - p) && HasLength(b, end - q) && CodeAt(a, s, p) == first && CodeAt(b, s, q) == second
    ensures CodeAt(e, s, p) == holds && HasLength(e, end - p)
  {
    ThenAt(a, b, s, p, q - p);
  }

  // Fields.

  lemma NextDigit(n: nat, i: nat)
    requires 0 < i < 8
    ensures Digit(n, i) == Digit(n / 256, i - 1)
  {
    if i == 1 {
    } else if i == 2 {
      assert n / 256 / 0x100 == n / 0x1_0000;
    } else if i == 3 {
      assert n / 256 / 0x1_0000 == n / 0x100_0000;
    } else if i == 4 {
      assert n / 256 / 0x100_0000 == n / 0x1_0000_0000;
    } else if i == 5 {
      assert n / 256 / 0x1_0000_0000 == n / 0x100_0000_0000;
    } else if i == 6 {
      assert n / 256 / 0x100_0000_0000 == n / 0x1_0000_0000_0000;
    } else {
      assert n / 256 / 0x1_0000_0000_0000 == n / 0x100_0000_0000_0000;
    }
  }

  lemma {:induction false} LEDigit(n: nat, k: nat, i: nat)
    requires i < k <= 8
    ensures LE(n, k)[i] == Digit(n, i)
    decreases k
  {
    if i > 0 {
      LEDigit(n / 256, k - 1, i - 1);
      NextDigit(n, i);
    }
  }

  lemma NumberIff(n: int, k: nat, s: seq<byte>, at: nat)
    requires k <= 8
    ensures CodeAt(EncUInt(n, k), s, at) <==> NumberAt(s, at, k, n)
    ensures HasLength(EncUInt(n, k), k)
  {
    if 0 <= n < Pow256(k) && at + k <= |s| {
      forall i: nat | i < k ensures LE(n, k)[i] == Digit(n, i) && s[at..at + k][i] == s[at + i] {
        LEDigit(n, k, i);
      }
    }
  }

  lemma {:induction false} FromLEAppend(a: seq<byte>, b: seq<byte>)
    ensures FromLE(a + b) == FromLE(a) + Pow256(|a|) * FromLE(b)
    decreases |a|
  {
    if a == [] {
      assert a + b == b;
    } else {
      assert (a + b)[1..] == a[1..] + b;
      FromLEAppend(a[1..], b);
      assert 256 * (Pow256(|a| - 1) * FromLE(b)) == (256 * Pow256(|a| - 1)) * FromLE(b);
    }
  }

  /** Two words of 32 bits are a number of 8 bytes. */
  lemma WordsAreLE(n: nat)
    requires n < 0x1_0000_0000_0000_0000
    ensures LE(n % 0x1_0000_0000, 4) + LE(n / 0x1_0000_0000, 4) == LE(n, 8)
  {
    Pow256Values();
    var lo, hi := LE(n % 0x1_0000_0000, 4), LE(n / 0x1_0000_0000, 4);
    FromLEOfLE(n % 0x1_0000_0000, 4);
    FromLEOfLE(n / 0x1_0000_0000, 4);
    FromLEAppend(lo, hi);
    LEOfFromLE(lo + hi);
  }

  lemma UInt64Iff(n: int, s: seq<byte>, at: nat)
    ensures CodeAt(EncUInt64(n), s, at) <==> NumberAt(s, at, 8, n)
    ensures HasLength(EncUInt64(n), 8)
  {
    Pow256Values();
    NumberIff(n, 8, s, at);
    if 0 <= n < 0x1_0000_0000_0000_0000 {
      WordsAreLE(n);
    }
  }

  lemma {:induction false} ReversedAt(h: seq<byte>, i: nat)
    requires i < |h|
    ensures Reversed(h)[i] == h[|h| - 1 - i]
    decreases |h|
  {
    if i < |h| - 1 {
      ReversedAt(h[1..], i);
    }
  }

  lemma IsReversed(b: seq<byte>, u: seq<byte>)
    requires |u| == |b|
    ensures u == Reversed(b) <==> Backwards(u, 0, b)
  {
    var r, n := Reversed(b), |b|;
    forall i | 0 <= i < n ensures b[i] == r[n - 1 - i] {
      ReversedAt(b, n - 1 - i);
    }
    if Backwards(u, 0, b) {
      forall k | 0 <= k < n ensures r[k] == u[k] {
        ReversedAt(b, k);
        assert b[n - 1 - k] == u[n - 1 - (n - 1 - k)];
      }
    }
  }

  lemma PartBackwards(b: seq<byte>, s: seq<byte>, at: nat)
    requires at + |b| <= |s|
    ensures Backwards(s[at..at + |b|], 0, b) <==> Backwards(s, at, b)
  {
    var u, n := s[at..at + |b|], |b|;
    assert forall i :: 0 <= i < n ==> (b[i] == u[n - 1 - i] <==> b[i] == s[at + n - 1 - i]);
  }

  lemma BackwardsIff(b: seq<byte>, s: seq<byte>, at: nat)
    ensures BytesAt(s, at, Reversed(b)) <==> Backwards(s, at, b)
  {
    if at + |b| <= |s| {
      IsReversed(b, s[at..at + |b|]);
      PartBackwards(b, s, at);
    }
  }

  lemma HashIff(h: seq<byte>, s: seq<byte>, at: nat)
    ensures CodeAt(EncHexReversed(h, 32), s, at) <==> HashAt(s, at, h)
    ensures HasLength(EncHexReversed(h, 32), 32)
  {
    BackwardsIff(h, s, at);
  }

  /** A tag and a number. */
  lemma TaggedIff(tag: byte, n: nat, k: nat, s: seq<byte>, at: nat)
    requires k <= 8 && n < Pow256(k)
    ensures BytesAt(s, at, [tag] + LE(n, k)) <==> at < |s| && s[at] == tag && NumberAt(s, at + 1, k, n)
  {
    ThenAt(Some([tag]), EncUInt(n, k), s, at, 1);
    NumberIff(n, k, s, at + 1);
    assert at < |s| ==> s[at..at + 1] == [s[at]];
  }

  lemma SizeIff(n: nat, s: seq<byte>, at: nat)
    ensures CodeAt(CompactSize.Enc(n), s, at) <==> SizeAt(s, at, n)
    ensures HasLength(CompactSize.Enc(n), PrefixLength(n))
  {
    Pow256Values();
    if n < 0xfd {
      assert at < |s| ==> s[at..at + 1] == [s[at]];
    } else if n <= 0xffff {
      TaggedIff(0xfd, n, 2, s, at);
    } else if n <= 0xffff_ffff {
      TaggedIff(0xfe, n, 4, s, at);
    } else if n <= MAX_SAFE_INTEGER {
      WordsAreLE(n);
      var lo, hi := LE(n % 0x1_0000_0000, 4), LE(n / 0x1_0000_0000, 4);
      assert [0xff] + lo + hi == [0xff] + (lo + hi);
      TaggedIff(0xff, n, 8, s, at);
    }
  }

  lemma SizedIff(b: seq<byte>, s: seq<byte>, at: nat)
    ensures CodeAt(EncSized(b), s, at) <==> SizedAt(s, at, b)
    ensures HasLength(EncSized(b), SizedLength(b))
  {
    SizeIff(|b|, s, at);
    ThenAt(CompactSize.Enc(|b|), Some(b), s, at, PrefixLength(|b|));
  }

  // Lists.

  /** What the codec writes for an element is what is laid out so. */
  ghost predicate LaysOut<T(!new)>(c: Codec<T>, holds: (seq<byte>, nat, T) -> bool, length: T -> nat) {
    forall x: T, s: seq<byte>, at: nat :: ElementIff(c, holds, length, x, s, at)
  }

  ghost predicate ElementIff<T>(c: Codec<T>, holds: (seq<byte>, nat, T) -> bool, length: T -> nat, x: T, s: seq<byte>,
                                at: nat)
  {
    (CodeAt(c.enc(x), s, at) <==> holds(s, at, x)) && HasLength(c.enc(x), length(x))
  }

  lemma {:induction false} ListIff<T(!new)>(c: Codec<T>, holds: (seq<byte>, nat, T) -> bool, length: T -> nat,
                                            xs: seq<T>, s: seq<byte>, at: nat)
    requires LaysOut(c, holds, length)
    ensures CodeAt(EncAll(c, xs), s, at) <==> ListAt(holds, length, s, at, xs)
    ensures HasLength(EncAll(c, xs), ListLength(length, xs))
    decreases |xs|
  {
    if xs != [] {
      assert ElementIff(c, holds, length, xs[0], s, at);
      ThenAt(c.enc(xs[0]), EncAll(c, xs[1..]), s, at, length(xs[0]));
      ListIff(c, holds, length, xs[1..], s, at + length(xs[0]));
    }
  }

  lemma CountedIff<T(!new)>(c: Codec<T>, holds: (seq<byte>, nat, T) -> bool, length: T -> nat, xs: seq<T>,
                            s: seq<byte>, at: nat)
    requires LaysOut(c, holds, length)
    ensures CodeAt(EncCounted(c, xs), s, at) <==> CountedAt(holds, length, s, at, xs)
    ensures HasLength(EncCounted(c, xs), CountedLength(length, xs))
  {
    SizeIff(|xs|, s, at);
    ThenAt(CompactSize.Enc(|xs|), EncAll(c, xs), s, at, PrefixLength(|xs|));
    ListIff(c, holds, length, xs, s, at + PrefixLength(|xs|));
  }

  // Transactions and blocks.

  /** An id and an index in front of `e`. */
  lemma IdAndIndex(txid: seq<byte>, index: int, e: Option<seq<byte>>, holds: bool, k: nat, s: seq<byte>, at: nat)
    requires HasLength(e, k) && CodeAt(e, s, at + 36) == holds
    ensures var whole := Then(EncHexReversed(txid, 32), Then(EncUInt(index, 4), e));
      && CodeAt(whole, s, at) == (HashAt(s, at, txid) && NumberAt(s, at + 32, 4, index) && holds)
      && HasLength(whole, 36 + k)
  {
    HashIff(txid, s, at);
    NumberIff(index, 4, s, at + 32);
    ThenAt(EncHexReversed(txid, 32), Then(EncUInt(index, 4), e), s, at, 32);
    ThenAt(EncUInt(index, 4), e, s, at + 32, 4);
  }

  /** A script behind its length, in front of `e`. */
  lemma BehindScript(code: seq<byte>, e: Option<seq<byte>>, holds: bool, k: nat, s: seq<byte>, at: nat, next: nat)
    requires next == at + SizedLength(code) && HasLength(e, k) && CodeAt(e, s, next) == holds
    ensures CodeAt(Then(EncSized(code), e), s, at) == (SizedAt(s, at, code) && holds)
    ensures HasLength(Then(EncSized(code), e), SizedLength(code) + k)
  {
    SizedIff(code, s, at);
    ThenAt(EncSized(code), e, s, at, SizedLength(code));
  }

  lemma VinIsThen(v: Vin, tail: Option<seq<byte>>)
    requires tail == Then(EncSized(v.script), EncUInt(v.sequence, 4))
    ensures EncVin(v) == Then(EncHexReversed(v.txid, 32), Then(EncUInt(v.index, 4), tail))
  {
  }

  lemma VinAtIs(v: Vin, s: seq<byte>, at: nat, script: nat, last: nat)
    requires script == at + 36 && last == script + SizedLength(v.script)
    ensures VinAt(s, at, v) == (HashAt(s, at, v.txid) && NumberAt(s, at + 32, 4, v.index)
                                && (SizedAt(s, script, v.script) && NumberAt(s, last, 4, v.sequence)))
  {
  }

  lemma VinTail(v: Vin, s: seq<byte>, at: nat, last: nat)
    requires last == at + SizedLength(v.script)
    ensures var tail := Then(EncSized(v.script), EncUInt(v.sequence, 4));
      && CodeAt(tail, s, at) == (SizedAt(s, at, v.script) && NumberAt(s, last, 4, v.sequence))
      && HasLength(tail, SizedLength(v.script) + 4)
  {
    NumberIff(v.sequence, 4, s, last);
    BehindScript(v.script, EncUInt(v.sequence, 4), NumberAt(s, last, 4, v.sequence), 4, s, at, last);
  }

  lemma VinIff(v: Vin, s: seq<byte>, at: nat)
    ensures CodeAt(EncVin(v), s, at) == VinAt(s, at, v)
    ensures HasLength(EncVin(v), VinLength(v))
  {
    var script := at + 36;
    var last := script + SizedLength(v.script);
    var tail := Then(EncSized(v.script), EncUInt(v.sequence, 4));
    VinTail(v, s, script, last);
    IdAndIndex(v.txid, v.index, tail, SizedAt(s, script, v.script) && NumberAt(s, last, 4, v.sequence),
               SizedLength(v.script) + 4, s, at);
    VinIsThen(v, tail);
    VinAtIs(v, s, at, script, last);
  }

  lemma VinsIff(vin: seq<Vin>, s: seq<byte>, at: nat)
    ensures CodeAt(EncCounted(VIN_CODEC, vin), s, at) <==> VinsAt(s, at, vin)
    ensures HasLength(EncCounted(VIN_CODEC, vin), VinsLength(vin))
  {
    forall x: Vin, t: seq<byte>, k: nat ensures ElementIff(VIN_CODEC, VinAt, VinLength, x, t, k) {
      VinIff(x, t, k);
    }
    CountedIff(VIN_CODEC, VinAt, VinLength, vin, s, at);
  }

  lemma VoutIff(version: int, v: Vout, s: seq<byte>, at: nat)
    ensures CodeAt(VoutCodec(version).enc(v), s, at) <==> VoutAt(version, s, at, v)
    ensures HasLength(VoutCodec(version).enc(v), VoutLength(version, v))
  {
    UInt64Iff(v.value, s, at);
    SizedIff(v.script, s, at + 8);
    ThenAt(EncUInt64(v.value), EncSized(v.script), s, at, 8);
    if version >= 4 {
      ThenAt(EncVoutV2(v), VarInt.Enc(v.tokenId), s, at, 8 + SizedLength(v.script));
    }
  }

  lemma VoutsIff(version: int, vout: seq<Vout>, s: seq<byte>, at: nat)
    ensures CodeAt(EncCounted(VoutCodec(version), vout), s, at) <==> VoutsAt(version, s, at, vout)
    ensures HasLength(EncCounted(VoutCodec(version), vout), VoutsLength(version, vout))
  {
    var c, holds, length := VoutCodec(version), OutputAt(version), OutputLength(version);
    forall x: Vout, t: seq<byte>, k: nat ensures ElementIff(c, holds, length, x, t, k) {
      VoutIff(version, x, t, k);
    }
    CountedIff(c, holds, length, vout, s, at);
  }

  lemma WitnessIff(w: Witness, s: seq<byte>, at: nat)
    ensures CodeAt(EncWitness(w), s, at) <==> WitnessAt(s, at, w)
    ensures HasLength(EncWitness(w), WitnessLength(w))
  {
    forall x: seq<byte>, t: seq<byte>, k: nat ensures ElementIff(SCRIPT_CODEC, SizedAt, SizedLength, x, t, k) {
      SizedIff(x, t, k);
    }
    CountedIff(SCRIPT_CODEC, SizedAt, SizedLength, w.scripts, s, at);
  }

  lemma WitnessesIff(ws: seq<Witness>, s: seq<byte>, at: nat)
    ensures CodeAt(EncAll(WITNESS_CODEC, ws), s, at) <==> ListAt(WitnessAt, WitnessLength, s, at, ws)
    ensures HasLength(EncAll(WITNESS_CODEC, ws), ListLength(WitnessLength, ws))
  {
    forall x: Witness, t: seq<byte>, k: nat ensures ElementIff(WITNESS_CODEC, WitnessAt, WitnessLength, x, t, k) {
      WitnessIff(x, t, k);
    }
    ListIff(WITNESS_CODEC, WitnessAt, WitnessLength, ws, s, at);
  }

  lemma LegacyAtIs(t: Tx, s: seq<byte>, at: nat, inputs: nat, outputs: nat, last: nat)
    requires inputs == at + 4 && outputs == inputs + VinsLength(t.vin)
    requires last == outputs + VoutsLength(t.version, t.vout)
    ensures LegacyAt(s, at, t) == (NumberAt(s, at, 4, t.version) && VinsAt(s, inputs, t.vin)
                                   && VoutsAt(t.version, s, outputs, t.vout) && NumberAt(s, last, 4, t.lockTime))
  {
  }

  lemma LegacyParts(version: int, a: Option<seq<byte>>, b: Option<seq<byte>>, lockTime: int, first: bool, second: bool,
                    k: nat, m: nat, s: seq<byte>, at: nat, inputs: nat, outputs: nat, last: nat)
    requires inputs == at + 4 && outputs == inputs + k && last == outputs + m
    requires HasLength(a, k) && HasLength(b, m) && CodeAt(a, s, inputs) == first && CodeAt(b, s, outputs) == second
    ensures var whole := Then(EncUInt(version, 4), Then(a, Then(b, EncUInt(lockTime, 4))));
      && CodeAt(whole, s, at) == (NumberAt(s, at, 4, version) && first && second && NumberAt(s, last, 4, lockTime))
      && HasLength(whole, 8 + k + m)
  {
    NumberIff(version, 4, s, at);
    NumberIff(lockTime, 4, s, last);
    FourAt(EncUInt(version, 4), a, b, EncUInt(lockTime, 4), s, at, inputs, outputs, last, last + 4);
  }

  lemma LegacyIsThen(t: Tx)
    ensures EncLegacy(t.version, t.vin, t.vout, t.lockTime)
         == Then(EncUInt(t.version, 4), Then(EncCounted(VIN_CODEC, t.vin),
                 Then(EncCounted(VoutCodec(t.version), t.vout), EncUInt(t.lockTime, 4))))
  {
  }

  lemma LegacyBody(t: Tx, s: seq<byte>, at: nat, inputs: nat, outputs: nat, last: nat)
    requires inputs == at + 4 && outputs == inputs + VinsLength(t.vin)
    requires last == outputs + VoutsLength(t.version, t.vout)
    ensures var whole := Then(EncUInt(t.version, 4), Then(EncCounted(VIN_CODEC, t.vin),
                              Then(EncCounted(VoutCodec(t.version), t.vout), EncUInt(t.lockTime, 4))));
      && CodeAt(whole, s, at) == (NumberAt(s, at, 4, t.version) && VinsAt(s, inputs, t.vin)
                                  && VoutsAt(t.version, s, outputs, t.vout) && NumberAt(s, last, 4, t.lockTime))
      && HasLength(whole, 8 + VinsLength(t.vin) + VoutsLength(t.version, t.vout))
  {
    VinsIff(t.vin, s, inputs);
    VoutsIff(t.version, t.vout, s, outputs);
    LegacyParts(t.version, EncCounted(VIN_CODEC, t.vin), EncCounted(VoutCodec(t.version), t.vout), t.lockTime,
                VinsAt(s, inputs, t.vin), VoutsAt(t.version, s, outputs, t.vout), VinsLength(t.vin),
                VoutsLength(t.version, t.vout), s, at, inputs, outputs, last);
  }

  /** A legacy transaction is version, inputs, outputs and lock time. */
  lemma LegacyIff(t: Tx, s: seq<byte>, at: nat)
    ensures CodeAt(EncLegacy(t.version, t.vin, t.vout, t.lockTime), s, at) == LegacyAt(s, at, t)
    ensures HasLength(EncLegacy(t.version, t.vin, t.vout, t.lockTime), LegacyLength(t))
  {
    var inputs := at + 4;
    var outputs := inputs + VinsLength(t.vin);
    var last := outputs + VoutsLength(t.version, t.vout);
    LegacyIsThen(t);
    LegacyBody(t, s, at, inputs, outputs, last);
    LegacyAtIs(t, s, at, inputs, outputs, last);
  }

  lemma ByteIff(n: int, s: seq<byte>, at: nat)
    ensures CodeAt(EncUInt(n, 1), s, at) <==> at < |s| && s[at] == n
    ensures HasLength(EncUInt(n, 1), 1)
  {
    Pow256Values();
    NumberIff(n, 1, s, at);
    if 0 <= n < 256 {
      assert Digit(n, 0) == n;
    }
  }

  lemma WitnessedAtIs(t: Tx, s: seq<byte>, at: nat, outputs: nat, witnesses: nat, last: nat)
    requires t.SegWit? && outputs == at + VinsLength(t.vin)
    requires witnesses == outputs + VoutsLength(t.version, t.vout)
    requires last == witnesses + ListLength(WitnessLength, t.witnesses)
    ensures WitnessedAt(s, at, t) == (VinsAt(s, at, t.vin) && VoutsAt(t.version, s, outputs, t.vout)
                                      && ListAt(WitnessAt, WitnessLength, s, witnesses, t.witnesses)
                                      && NumberAt(s, last, 4, t.lockTime))
  {
  }

  lemma WitnessedParts(a: Option<seq<byte>>, b: Option<seq<byte>>, c: Option<seq<byte>>, lockTime: int, first: bool,
                       second: bool, third: bool, k: nat, m: nat, n: nat, s: seq<byte>, at: nat, outputs: nat,
                       witnesses: nat, last: nat)
    requires outputs == at + k && witnesses == outputs + m && last == witnesses + n
    requires HasLength(a, k) && HasLength(b, m) && HasLength(c, n)
    requires CodeAt(a, s, at) == first && CodeAt(b, s, outputs) == second && CodeAt(c, s, witnesses) == third
    ensures var whole := Then(a, Then(b, Then(c, EncUInt(lockTime, 4))));
      && CodeAt(whole, s, at) == (first && second && third && NumberAt(s, last, 4, lockTime))
      && HasLength(whole, k + m + n + 4)
  {
    NumberIff(lockTime, 4, s, last);
    FourAt(a, b, c, EncUInt(lockTime, 4), s, at, outputs, witnesses, last, last + 4);
  }

  lemma WitnessedIsThen(t: Tx)
    requires t.SegWit?
    ensures EncWitnessed(t.version, t.vin, t.vout, t.witnesses, t.lockTime)
         == Then(EncCounted(VIN_CODEC, t.vin), Then(EncCounted(VoutCodec(t.version), t.vout),
                 Then(EncAll(WITNESS_CODEC, t.witnesses), EncUInt(t.lockTime, 4))))
  {
  }

  lemma WitnessedBody(t: Tx, s: seq<byte>, at: nat, outputs: nat, witnesses: nat, last: nat)
    requires t.SegWit? && outputs == at + VinsLength(t.vin)
    requires witnesses == outputs + VoutsLength(t.version, t.vout)
    requires last == witnesses + ListLength(WitnessLength, t.witnesses)
    ensures var whole := Then(EncCounted(VIN_CODEC, t.vin), Then(EncCounted(VoutCodec(t.version), t.vout),
                              Then(EncAll(WITNESS_CODEC, t.witnesses), EncUInt(t.lockTime, 4))));
      && CodeAt(whole, s, at) == (VinsAt(s, at, t.vin) && VoutsAt(t.version, s, outputs, t.vout)
                                  && ListAt(WitnessAt, WitnessLength, s, witnesses, t.witnesses)
                                  && NumberAt(s, last, 4, t.lockTime))
      && HasLength(whole, TxBehindFlag(t))
  {
    VinsIff(t.vin, s, at);
    VoutsIff(t.version, t.vout, s, outputs);
    WitnessesIff(t.witnesses, s, witnesses);
    WitnessedParts(EncCounted(VIN_CODEC, t.vin), EncCounted(VoutCodec(t.version), t.vout),
                   EncAll(WITNESS_CODEC, t.witnesses), t.lockTime, VinsAt(s, at, t.vin),
                   VoutsAt(t.version, s, outputs, t.vout), ListAt(WitnessAt, WitnessLength, s, witnesses, t.witnesses),
                   VinsLength(t.vin), VoutsLength(t.version, t.vout), ListLength(WitnessLength, t.witnesses), s, at,
                   outputs, witnesses, last);
  }

  lemma WitnessedIff(t: Tx, s: seq<byte>, at: nat)
    requires t.SegWit?
    ensures CodeAt(EncWitnessed(t.version, t.vin, t.vout, t.witnesses, t.lockTime), s, at) == WitnessedAt(s, at, t)
    ensures HasLength(EncWitnessed(t.version, t.vin, t.vout, t.witnesses, t.lockTime), TxBehindFlag(t))
  {
    var outputs := at + VinsLength(t.vin);
    var witnesses := outputs + VoutsLength(t.version, t.vout);
    var last := witnesses + ListLength(WitnessLength, t.witnesses);
    WitnessedIsThen(t);
    WitnessedBody(t, s, at, outputs, witnesses, last);
    WitnessedAtIs(t, s, at, outputs, witnesses, last);
  }

  function TxBehindFlag(t: Tx): nat
    requires t.SegWit?
  {
    VinsLength(t.vin) + VoutsLength(t.version, t.vout) + ListLength(WitnessLength, t.witnesses) + 4
  }

  lemma SegWitIff(t: Tx, s: seq<byte>, at: nat)
    requires t.SegWit?
    ensures CodeAt(EncSegWit(t), s, at) <==> SegWitAt(s, at, t)
    ensures HasLength(EncSegWit(t), 6 + TxBehindFlag(t))
  {
    NumberIff(t.version, 4, s, at);
    ByteIff(t.marker, s, at + 4);
    ByteIff(t.flag, s, at + 5);
    WitnessedIff(t, s, at + 6);
    FourAt(EncUInt(t.version, 4), EncUInt(t.marker, 1), EncUInt(t.flag, 1),
           EncWitnessed(t.version, t.vin, t.vout, t.witnesses, t.lockTime), s, at, at + 4, at + 5, at + 6,
           at + 6 + TxBehindFlag(t));
  }

  /** The marker decides between the two layouts. */
  lemma TxIff(t: Tx, s: seq<byte>, at: nat)
    ensures CodeAt(EncTx(t), s, at) <==> TxAt(s, at, t)
    ensures HasLength(EncTx(t), TxLength(t))
  {
    if t.SegWit? && t.marker == 0 {
      SegWitIff(t, s, at);
    } else {
      LegacyIff(t, s, at);
    }
  }

  /** The header from its bits on. */
  predicate HeaderTailAt(s: seq<byte>, at: nat, h: Header) {
    && NumberAt(s, at, 4, h.bits) && HashAt(s, at + 4, h.stakeModifier)
    && NumberAt(s, at + 36, 8, h.height) && NumberAt(s, at + 44, 8, h.mintedBlocks) && SizedAt(s, at + 52, h.signature)
  }

  lemma HeaderTailIff(h: Header, s: seq<byte>, at: nat)
    ensures CodeAt(EncHeaderTail(h), s, at) == HeaderTailAt(s, at, h)
    ensures HasLength(EncHeaderTail(h), 52 + SizedLength(h.signature))
  {
    var e := EncSized(h.signature);
    var d := Then(EncUInt64(h.mintedBlocks), e);
    var end := at + 52 + SizedLength(h.signature);
    NumberIff(h.bits, 4, s, at);
    HashIff(h.stakeModifier, s, at + 4);
    UInt64Iff(h.height, s, at + 36);
    UInt64Iff(h.mintedBlocks, s, at + 44);
    SizedIff(h.signature, s, at + 52);
    var last := NumberAt(s, at + 44, 8, h.mintedBlocks) && SizedAt(s, at + 52, h.signature);
    TwoIff(d, last, EncUInt64(h.mintedBlocks), e, s, at + 44, at + 52, end,
           NumberAt(s, at + 44, 8, h.mintedBlocks), SizedAt(s, at + 52, h.signature));
    FourIff(EncHeaderTail(h), HeaderTailAt(s, at, h), EncUInt(h.bits, 4), EncHexReversed(h.stakeModifier, 32),
            EncUInt64(h.height), d, s, at, at + 4, at + 36, at + 44, end, NumberAt(s, at, 4, h.bits),
            HashAt(s, at + 4, h.stakeModifier), NumberAt(s, at + 36, 8, h.height), last);
  }

  /** The header from its time on. */
  lemma HeaderTimeIff(h: Header, s: seq<byte>, at: nat)
    ensures CodeAt(Then(EncUInt(h.time, 4), EncHeaderTail(h)), s, at)
         == (NumberAt(s, at, 4, h.time) && HeaderTailAt(s, at + 4, h))
    ensures HasLength(Then(EncUInt(h.time, 4), EncHeaderTail(h)), 56 + SizedLength(h.signature))
  {
    NumberIff(h.time, 4, s, at);
    HeaderTailIff(h, s, at + 4);
    ThenAt(EncUInt(h.time, 4), EncHeaderTail(h), s, at, 4);
  }

  lemma HeaderAtIs(h: Header, s: seq<byte>, at: nat)
    ensures HeaderAt(s, at, h)
         == (NumberAt(s, at, 4, h.version) && HashAt(s, at + 4, h.hashPrevBlock) && HashAt(s, at + 36, h.hashMerkleRoot)
             && (NumberAt(s, at + 68, 4, h.time) && HeaderTailAt(s, at + 72, h)))
  {
  }

  /** The header up to its time, which `e` begins with. */
  lemma HeaderFrontIff(h: Header, e: Option<seq<byte>>, holds: bool, k: nat, s: seq<byte>, at: nat)
    requires HasLength(e, k) && CodeAt(e, s, at + 68) == holds
    ensures var front := Then(EncUInt(h.version, 4), Then(EncHexReversed(h.hashPrevBlock, 32),
                              Then(EncHexReversed(h.hashMerkleRoot, 32), e)));
      && CodeAt(front, s, at) == (NumberAt(s, at, 4, h.version) && HashAt(s, at + 4, h.hashPrevBlock)
                                  && HashAt(s, at + 36, h.hashMerkleRoot) && holds)
      && HasLength(front, 68 + k)
  {
    NumberIff(h.version, 4, s, at);
    HashIff(h.hashPrevBlock, s, at + 4);
    HashIff(h.hashMerkleRoot, s, at + 36);
    FourAt(EncUInt(h.version, 4), EncHexReversed(h.hashPrevBlock, 32), EncHexReversed(h.hashMerkleRoot, 32), e,
           s, at, at + 4, at + 36, at + 68, at + 68 + k);
  }

  /** The header is 124 bytes of fixed places, then its signature. */
  lemma HeaderIff(h: Header, s: seq<byte>, at: nat)
    ensures CodeAt(EncHeader(h), s, at) <==> HeaderAt(s, at, h)
    ensures HasLength(EncHeader(h), HeaderLength(h))
  {
    var last := NumberAt(s, at + 68, 4, h.time) && HeaderTailAt(s, at + 72, h);
    HeaderTimeIff(h, s, at + 68);
    HeaderFrontIff(h, Then(EncUInt(h.time, 4), EncHeaderTail(h)), last, 56 + SizedLength(h.signature), s, at);
    HeaderAtIs(h, s, at);
  }

  lemma TransactionsIff(ts: seq<Tx>, s: seq<byte>, at: nat)
    ensures CodeAt(EncCounted(TX_CODEC, ts), s, at) == CountedAt(TxAt, TxLength, s, at, ts)
    ensures HasLength(EncCounted(TX_CODEC, ts), CountedLength(TxLength, ts))
  {
    forall x: Tx, t: seq<byte>, k: nat ensures ElementIff(TX_CODEC, TxAt, TxLength, x, t, k) {
      TxIff(x, t, k);
    }
    CountedIff(TX_CODEC, TxAt, TxLength, ts, s, at);
  }

  lemma BlockAtIs(b: Block, s: seq<byte>, at: nat, first: nat)
    requires first == at + HeaderLength(b.header)
    ensures BlockAt(s, at, b) == (HeaderAt(s, at, b.header) && CountedAt(TxAt, TxLength, s, first, b.transactions))
  {
  }

  lemma BlockIff(b: Block, s: seq<byte>, at: nat)
    ensures CodeAt(EncBlock(b), s, at) <==> BlockAt(s, at, b)
    ensures HasLength(EncBlock(b), BlockLength(b))
  {
    var first := at + HeaderLength(b.header);
    BlockAtIs(b, s, at, first);
    HeaderIff(b.header, s, at);
    TransactionsIff(b.transactions, s, first);
    TwoIff(EncBlock(b), BlockAt(s, at, b), EncHeader(b.header), EncCounted(TX_CODEC, b.transactions), s, at, first,
           first + CountedLength(TxLength, b.transactions), HeaderAt(s, at, b.header),
           CountedAt(TxAt, TxLength, s, first, b.transactions));
  }

  /** A block is written as just the bytes that are laid out so, in full; and it cannot be written if no bytes are. */
  lemma WrittenIffLaidOut(b: Block, s: seq<byte>)
    ensures EncBlock(b) == Some(s) <==> |s| == BlockLength(b) && BlockAt(s, 0, b)
  {
    BlockIff(b, s, 0);
    assert s[0..|s|] == s;
  }

  lemma CodeInFront(e: Option<seq<byte>>, k: nat, s: seq<byte>)
    requires CodeAt(e, s, 0) && HasLength(e, k)
    ensures k <= |s| && s == e.value + s[k..]
  {
    assert s[0..k] == s[..k];
  }

  /** What is laid out so reads as the block, if its transactions can be told apart, and whatever follows is left. */
  lemma LaidOutReads(b: Block, s: seq<byte>)
    requires BlockAt(s, 0, b) && forall i :: 0 <= i < |b.transactions| ==> Distinct(b.transactions[i])
    ensures BlockLength(b) <= |s|
    ensures DecBlock(s) == Done(b.(transactions := NormAll(TX_CODEC, b.transactions)), s[BlockLength(b)..])
  {
    BlockIff(b, s, 0);
    CodeInFront(EncBlock(b), BlockLength(b), s);
    BlockRoundTrip(b, s[BlockLength(b)..]);
  }

  /** The same of an input: what is laid out so reads as the input. */
  lemma VinLaidOutReads(v: Vin, s: seq<byte>)
    requires VinAt(s, 0, v)
    ensures VinLength(v) <= |s| && DecVin(s) == Done(v, s[VinLength(v)..])
  {
    VinIff(v, s, 0);
    CodeInFront(EncVin(v), VinLength(v), s);
    VinLaw(v);
    assert VIN_CODEC.dec(VIN_CODEC.enc(v).value + s[VinLength(v)..]) == Done(v, s[VinLength(v)..]);
  }

  /** The same of a transaction by itself. */
  lemma TxWrittenIffLaidOut(t: Tx, s: seq<byte>)
    ensures EncTx(t) == Some(s) <==> |s| == TxLength(t) && TxAt(s, 0, t)
  {
    TxIff(t, s, 0);
    assert s[0..|s|] == s;
  }

  /** A price is its whole part and its hundred-millionths, in eight bytes each; the largest one is itself twice. */
  lemma MaxPriceLayout(price: real)
    requires EncMaxPrice(price).Some?
    ensures |EncMaxPrice(price).value| == 16
    ensures price == MAX_INT64 as real ==>
      NumberAt(EncMaxPrice(price).value, 0, 8, MAX_INT64) && NumberAt(EncMaxPrice(price).value, 8, 8, MAX_INT64)
    ensures price != MAX_INT64 as real ==>
      var s, n := EncMaxPrice(price).value, (price * 100000000.0).Floor;
      price == n as real / 100000000.0 && NumberAt(s, 0, 8, n / 100000000) && NumberAt(s, 8, 8, n % 100000000)
  {
    var n := (price * 100000000.0).Floor;
    if price == MAX_INT64 as real {
      TwoNumbers(MAX_INT64, MAX_INT64);
    } else {
      TwoNumbers(n / 100000000, n % 100000000);
    }
  }

  lemma TwoNumbers(m: int, n: int)
    requires Then(EncUInt64(m), EncUInt64(n)).Some?
    ensures var s := Then(EncUInt64(m), EncUInt64(n)).value; |s| == 16 && NumberAt(s, 0, 8, m) && NumberAt(s, 8, 8, n)
  {
    var s := Then(EncUInt64(m), EncUInt64(n)).value;
    UInt64Iff(m, s, 0);
    UInt64Iff(n, s, 8);
    ThenAt(EncUInt64(m), EncUInt64(n), s, 0, 8);
    assert s[0..|s|] == s;
  }
}
