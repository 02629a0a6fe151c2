/** Bytes, little-endian numbers, and the two shapes of a binary format: writing may throw (`None`), and reading
    returns a value and the bytes that are left, or throws (`Fail`). */
module Bytes {
  import opened Wrappers

  type byte = b: int | 0 <= b < 256

  datatype Parsed<+T> = Fail | Done(value: T, rest: seq<byte>)

  const MAX_SAFE_INTEGER := 9007199254740991

  /** Two writes after one another: nothing is usable once one of them throws. */
  function Then(a: Option<seq<byte>>, b: Option<seq<byte>>): Option<seq<byte>> {
    if a.Some? && b.Some? then Some(a.value + b.value) else None
  }

  function Pow256(k: nat): nat
    decreases k
  {
    if k == 0 then 1 else 256 * Pow256(k - 1)
  }

  function LE(n: nat, k: nat): (s: seq<byte>)
    ensures |s| == k
    decreases k
  {
    if k == 0 then [] else [n % 256] + LE(n / 256, k - 1)
  }

  function FromLE(s: seq<byte>): nat {
    if s == [] then 0 else s[0] + 256 * FromLE(s[1..])
  }

  lemma {:induction false} FromLEOfLE(n: nat, k: nat)
    requires n < Pow256(k)
    ensures FromLE(LE(n, k)) == n
    decreases k
  {
    if k > 0 {
      FromLEOfLE(n / 256, k - 1);
      assert LE(n, k)[1..] == LE(n / 256, k - 1);
    }
  }

  lemma {:induction false} LEOfFromLE(s: seq<byte>)
    ensures FromLE(s) < Pow256(|s|) && LE(FromLE(s), |s|) == s
    decreases |s|
  {
    if s != [] {
      LEOfFromLE(s[1..]);
      LECons(s[0], FromLE(s[1..]), |s[1..]|);
      assert s == [s[0]] + s[1..];
    }
  }

  lemma LECons(b: byte, n: nat, k: nat)
    requires n < Pow256(k)
    ensures b + 256 * n < Pow256(k + 1) && LE(b + 256 * n, k + 1) == [b] + LE(n, k)
  {
    assert (b + 256 * n) / 256 == n && (b + 256 * n) % 256 == b;
  }

  lemma FromLEOne(b: byte)
    ensures FromLE([b]) == b
  {
  }

  lemma Pow256Values()
    ensures Pow256(1) == 0x100 && Pow256(2) == 0x1_0000 && Pow256(4) == 0x1_0000_0000
      && Pow256(8) == 0x1_0000_0000_0000_0000
  {
    assert Pow256(4) == 256 * 256 * 256 * 256;
    assert Pow256(8) == 256 * 256 * 256 * 256 * Pow256(4);
  }

  /** `writeUIntXLE`: throws when the number does not fit. */
  function EncUInt(n: int, k: nat): Option<seq<byte>> {
    if 0 <= n < Pow256(k) then Some(LE(n, k)) else None
  }

  /** `readUIntXLE`: throws when the buffer ends first. */
  function DecUInt(s: seq<byte>, k: nat): Parsed<nat> {
    if |s| < k then Fail else Done(FromLE(s[..k]), s[k..])
  }

  lemma UIntRoundTrip(n: int, k: nat, rest: seq<byte>)
    requires EncUInt(n, k).Some?
    ensures DecUInt(EncUInt(n, k).value + rest, k) == Done(n, rest)
  {
    FromLEOfLE(n, k);
    assert (LE(n, k) + rest)[..k] == LE(n, k) && (LE(n, k) + rest)[k..] == rest;
  }

  /** `readBuffer` returns fewer bytes than asked for at the end of the buffer; it never throws. */
  function DecBytes(s: seq<byte>, n: nat): Parsed<seq<byte>> {
    if n <= |s| then Done(s[..n], s[n..]) else Done(s, [])
  }

  lemma BytesRoundTrip(b: seq<byte>, rest: seq<byte>)
    ensures DecBytes(b + rest, |b|) == Done(b, rest)
  {
    assert (b + rest)[..|b|] == b && (b + rest)[|b|..] == rest;
  }

  function Reversed<T>(s: seq<T>): (r: seq<T>)
    ensures |r| == |s|
  {
    if s == [] then [] else Reversed(s[1..]) + [s[0]]
  }

  lemma {:induction false} ReversedAppend<T>(a: seq<T>, b: seq<T>)
    ensures Reversed(a + b) == Reversed(b) + Reversed(a)
    decreases |a|
  {
    if a == [] {
      assert a + b == b;
    } else {
      assert (a + b)[1..] == a[1..] + b;
      ReversedAppend(a[1..], b);
    }
  }

  lemma {:induction false} ReversedTwice<T>(s: seq<T>)
    ensures Reversed(Reversed(s)) == s
    decreases |s|
  {
    if s != [] {
      ReversedAppend(Reversed(s[1..]), [s[0]]);
      ReversedTwice(s[1..]);
    }
  }

  function Zeros(n: nat): (s: seq<byte>)
    ensures |s| == n && forall k :: 0 <= k < n ==> s[k] == 0
  {
    seq(n, k => 0)
  }

  /** The buffer that is read and written in place. */
  class SmartBuffer {
    var bytes: seq<byte>
    var readOffset: nat

    constructor (initial: seq<byte>)
      ensures Valid() && bytes == initial && Rest() == initial
    {
      bytes, readOffset := initial, 0;
    }

    ghost predicate Valid()
      reads this
    {
      readOffset <= |bytes|
    }

    /** The bytes not read yet. */
    function Rest(): seq<byte>
      requires Valid()
      reads this
    {
      bytes[readOffset..]
    }

    method Write(data: seq<byte>)
      requires Valid()
      modifies this`bytes
      ensures Valid() && bytes == old(bytes) + data
    {
      bytes := bytes + data;
    }

    method WriteUInt(n: int, k: nat) returns (ok: bool)
      requires Valid()
      modifies this`bytes
      ensures Valid() && ok == EncUInt(n, k).Some?
      ensures bytes == if ok then old(bytes) + EncUInt(n, k).value else old(bytes)
    {
      ok := 0 <= n < Pow256(k);
      if ok {
        bytes := bytes + LE(n, k);
      }
    }

    method ReadUInt(k: nat) returns (r: Option<nat>)
      requires Valid()
      modifies this`readOffset
      ensures Valid()
      ensures match DecUInt(old(Rest()), k)
              case Fail => r == None && readOffset == old(readOffset)
              case Done(v, rest) => r == Some(v) && Rest() == rest
    {
      if |bytes| - readOffset < k {
        return None;
      }
      r := Some(FromLE(bytes[readOffset..][..k]));
      readOffset := readOffset + k;
    }

    method ReadBytes(n: nat) returns (r: seq<byte>)
      requires Valid()
      modifies this`readOffset
      ensures Valid() && Done(r, Rest()) == DecBytes(old(Rest()), n)
    {
      var end := if readOffset + n <= |bytes| then readOffset + n else |bytes|;
      r := bytes[readOffset..end];
      assert r == if n <= |Rest()| then Rest()[..n] else Rest();
      readOffset := end;
    }
  }
}
