/** What a signature of an input covers. `h` stands for the double SHA-256 and `hash160` for the public key hash; a
    32 byte hash cannot be injective, so a claim names the inputs on which it must not collide. */
module Signing {
  import opened Wrappers
  import opened Bytes
  import opened Composer
  import opened Transactions
  import Blocks
  import B = TransactionBuffers

  type Hash = seq<byte> -> seq<byte>

  const SIGHASH_ALL := 1

  datatype Outpoint = Outpoint(txid: seq<byte>, index: int)

  datatype WitnessProgram = WitnessProgram(version: int, hashPrevouts: seq<byte>, hashSequence: seq<byte>,
                                           outpoint: Outpoint, scriptCode: seq<byte>, value: int, sequence: int,
                                           hashOutputs: seq<byte>, lockTime: int, hashType: int)

  // The three inner preimages.

  /** The id is written reversed and its length is not looked at. */
  function EncOutpoint(o: Outpoint): Option<seq<byte>> {
    Then(Some(Reversed(o.txid)), EncUInt(o.index, 4))
  }

  function DecOutpoint(s: seq<byte>): Parsed<Outpoint> {
    match DecHexReversed(s, 32)
    case Fail => Fail
    case Done(txid, s1) =>
      match DecUInt(s1, 4)
      case Fail => Fail
      case Done(index, s2) => Done(Outpoint(txid, index), s2)
  }

  const OUTPOINT_CODEC: Codec<Outpoint> := Codec(EncOutpoint, DecOutpoint, o => o)

  const SEQUENCE_CODEC: Codec<int> := Codec(n => EncUInt(n, 4), s => DecUInt(s, 4), n => n)

  function Outpoints(vin: seq<Vin>): (r: seq<Outpoint>)
    ensures |r| == |vin| && forall i :: 0 <= i < |vin| ==> r[i] == Outpoint(vin[i].txid, vin[i].index)
  {
    seq(|vin|, i requires 0 <= i < |vin| => Outpoint(vin[i].txid, vin[i].index))
  }

  function Sequences(vin: seq<Vin>): (r: seq<int>)
    ensures |r| == |vin| && forall i :: 0 <= i < |vin| ==> r[i] == vin[i].sequence
  {
    seq(|vin|, i requires 0 <= i < |vin| => vin[i].sequence)
  }

  function Hashed(h: Hash, e: Option<seq<byte>>): Option<seq<byte>> {
    if e.Some? then Some(h(e.value)) else None
  }

  // The preimage.

  function EncProgram(p: WitnessProgram): Option<seq<byte>> {
    Then(EncUInt(p.version, 4), Then(EncHex(p.hashPrevouts, 32), Then(EncHex(p.hashSequence, 32),
      Then(EncHexReversed(p.outpoint.txid, 32), Then(EncUInt(p.outpoint.index, 4), EncProgramTail(p))))))
  }

  function EncProgramTail(p: WitnessProgram): Option<seq<byte>> {
    Then(EncSized(p.scriptCode), Then(EncUInt64(p.value), Then(EncUInt(p.sequence, 4),
      Then(EncHex(p.hashOutputs, 32), Then(EncUInt(p.lockTime, 4), EncUInt(p.hashType, 4))))))
  }

  /** `asWitnessProgram`: any hash type but ALL is refused. */
  function Program(h: Hash, t: Tx, i: nat, scriptCode: seq<byte>, value: int, hashType: int): Option<WitnessProgram>
    requires i < |t.vin|
  {
    var p := Hashed(h, EncAll(OUTPOINT_CODEC, Outpoints(t.vin)));
    var s := Hashed(h, EncAll(SEQUENCE_CODEC, Sequences(t.vin)));
    var o := Hashed(h, EncAll(VoutCodec(t.version), t.vout));
    if hashType != SIGHASH_ALL || p.None? || s.None? || o.None? then None
    else Some(WitnessProgram(t.version, p.value, s.value, Outpoint(t.vin[i].txid, t.vin[i].index), scriptCode, value,
                             t.vin[i].sequence, o.value, t.lockTime, hashType))
  }

  function Preimage(h: Hash, t: Tx, i: nat, scriptCode: seq<byte>, value: int, hashType: int): Option<seq<byte>>
    requires i < |t.vin|
  {
    var p := Program(h, t, i, scriptCode, value, hashType);
    if p.Some? then EncProgram(p.value) else None
  }

  /** All that a signature commits to; token ids that outputs of version 2 do not store read as 0. */
  datatype Commitment = Commitment(version: int, outpoints: seq<Outpoint>, sequences: seq<int>, outputs: seq<Vout>,
                                   lockTime: int, outpoint: Outpoint, sequence: int, scriptCode: seq<byte>, value: int)

  function Committed(t: Tx, i: nat, scriptCode: seq<byte>, value: int): Commitment
    requires i < |t.vin|
  {
    Commitment(t.version, Outpoints(t.vin), Sequences(t.vin), NormAll(VoutCodec(t.version), t.vout), t.lockTime,
               Outpoint(t.vin[i].txid, t.vin[i].index), t.vin[i].sequence, scriptCode, value)
  }

  /** As many inputs, and ids of the same lengths: two transactions whose ids all have 32 bytes, for instance. */
  predicate SameTxidLengths(x: seq<Outpoint>, y: seq<Outpoint>) {
    |x| == |y| && forall i :: 0 <= i < |x| ==> |x[i].txid| == |y[i].txid|
  }

  /** The hash does not confuse these two inputs. */
  ghost predicate Apart(h: Hash, a: Option<seq<byte>>, b: Option<seq<byte>>) {
    a.Some? && b.Some? && h(a.value) == h(b.value) ==> a == b
  }

  ghost predicate NoCollision(h: Hash, t: Tx, u: Tx) {
    && Apart(h, EncAll(OUTPOINT_CODEC, Outpoints(t.vin)), EncAll(OUTPOINT_CODEC, Outpoints(u.vin)))
    && Apart(h, EncAll(SEQUENCE_CODEC, Sequences(t.vin)), EncAll(SEQUENCE_CODEC, Sequences(u.vin)))
    && Apart(h, EncAll(VoutCodec(t.version), t.vout), EncAll(VoutCodec(u.version), u.vout))
  }

  lemma SequenceLaw(n: int)
    ensures Law(SEQUENCE_CODEC, n) && EncUInt(n, 4) != Some([])
  {
    forall rest | EncUInt(n, 4).Some? ensures DecUInt(EncUInt(n, 4).value + rest, 4) == Done(n, rest) {
      UIntRoundTrip(n, 4, rest);
    }
  }

  lemma SequencesSplitOnce(v: seq<int>, w: seq<int>)
    requires EncAll(SEQUENCE_CODEC, v).Some? && EncAll(SEQUENCE_CODEC, v) == EncAll(SEQUENCE_CODEC, w)
    ensures v == w
  {
    forall i | 0 <= i < |v| ensures Law(SEQUENCE_CODEC, v[i]) && SEQUENCE_CODEC.enc(v[i]) != Some([]) {
      SequenceLaw(v[i]);
    }
    forall i | 0 <= i < |w| ensures Law(SEQUENCE_CODEC, w[i]) && SEQUENCE_CODEC.enc(w[i]) != Some([]) {
      SequenceLaw(w[i]);
    }
    AllSplitOnce(SEQUENCE_CODEC, v, w);
    assert NormAll(SEQUENCE_CODEC, v) == v;
    assert NormAll(SEQUENCE_CODEC, w) == w;
  }

  lemma OutputsSplitOnce(version: int, v: seq<Vout>, w: seq<Vout>)
    requires EncAll(VoutCodec(version), v).Some? && EncAll(VoutCodec(version), v) == EncAll(VoutCodec(version), w)
    ensures NormAll(VoutCodec(version), v) == NormAll(VoutCodec(version), w)
  {
    forall i | 0 <= i < |v| ensures Law(VoutCodec(version), v[i]) && VoutCodec(version).enc(v[i]) != Some([]) {
      VoutLaw(version, v[i]);
    }
    forall i | 0 <= i < |w| ensures Law(VoutCodec(version), w[i]) && VoutCodec(version).enc(w[i]) != Some([]) {
      VoutLaw(version, w[i]);
    }
    AllSplitOnce(VoutCodec(version), v, w);
  }

  /** What an output reads as is all that its code depends on. */
  lemma {:induction false} OutputsByNorm(version: int, v: seq<Vout>)
    ensures EncAll(VoutCodec(version), NormAll(VoutCodec(version), v)) == EncAll(VoutCodec(version), v)
    decreases |v|
  {
    var c := VoutCodec(version);
    if v != [] {
      OutputsByNorm(version, v[1..]);
      assert NormAll(c, v)[1..] == NormAll(c, v[1..]);
      assert c.enc(c.norm(v[0])) == c.enc(v[0]);
    }
  }

  /** A field of known reading, in front of something else. */
  lemma FieldSplits(a: Option<seq<byte>>, b: Option<seq<byte>>, c: Option<seq<byte>>, d: Option<seq<byte>>)
    requires Then(a, c).Some? && Then(a, c) == Then(b, d)
    requires |a.value| == |b.value|
    ensures a == b && c == d
  {
    assert (a.value + c.value)[..|a.value|] == a.value && (b.value + d.value)[..|b.value|] == b.value;
    assert (a.value + c.value)[|a.value|..] == c.value && (b.value + d.value)[|b.value|..] == d.value;
  }

  lemma UIntInjective(m: int, n: int, k: nat)
    requires EncUInt(m, k).Some? && EncUInt(m, k) == EncUInt(n, k)
    ensures m == n
  {
    FromLEOfLE(m, k);
    FromLEOfLE(n, k);
  }

  lemma SizedSplits(a: seq<byte>, b: seq<byte>, c: seq<byte>, d: seq<byte>)
    requires EncSized(a).Some? && EncSized(b).Some? && EncSized(a).value + c == EncSized(b).value + d
    ensures a == b && c == d
  {
    SizedRoundTrip(a, c);
    SizedRoundTrip(b, d);
  }

  lemma UInt64Injective(m: int, n: int)
    requires EncUInt64(m).Some? && EncUInt64(m) == EncUInt64(n)
    ensures m == n
  {
    UInt64RoundTrip(m, []);
    UInt64RoundTrip(n, []);
  }

  lemma ReversedInjective(a: seq<byte>, b: seq<byte>)
    requires Reversed(a) == Reversed(b)
    ensures a == b
  {
    ReversedTwice(a);
    ReversedTwice(b);
  }

  lemma OutpointSplits(o: Outpoint, p: Outpoint, a: Option<seq<byte>>, b: Option<seq<byte>>)
    requires Then(EncOutpoint(o), a).Some? && Then(EncOutpoint(o), a) == Then(EncOutpoint(p), b) && |o.txid| == |p.txid|
    ensures o == p && a == b
  {
    FieldSplits(EncOutpoint(o), EncOutpoint(p), a, b);
    FieldSplits(Some(Reversed(o.txid)), Some(Reversed(p.txid)), EncUInt(o.index, 4), EncUInt(p.index, 4));
    ReversedInjective(o.txid, p.txid);
    UIntInjective(o.index, p.index, 4);
  }

  /** Outpoints that are written the same are the same exactly when there are as many and their ids have the same
      lengths, which the writer does not look at. */
  lemma {:induction false} OutpointsSplitIff(x: seq<Outpoint>, y: seq<Outpoint>)
    requires EncAll(OUTPOINT_CODEC, x).Some? && EncAll(OUTPOINT_CODEC, x) == EncAll(OUTPOINT_CODEC, y)
    ensures x == y <==> SameTxidLengths(x, y)
    decreases |x|
  {
    if x != [] && SameTxidLengths(x, y) {
      OutpointSplits(x[0], y[0], EncAll(OUTPOINT_CODEC, x[1..]), EncAll(OUTPOINT_CODEC, y[1..]));
      OutpointsSplitIff(x[1..], y[1..]);
      assert x == [x[0]] + x[1..] && y == [y[0]] + y[1..];
    }
  }

  lemma ProgramTailInjective(p: WitnessProgram, q: WitnessProgram)
    requires EncProgramTail(p).Some? && EncProgramTail(p) == EncProgramTail(q)
    ensures p.scriptCode == q.scriptCode && p.value == q.value && p.sequence == q.sequence
      && p.hashOutputs == q.hashOutputs
         && p.lockTime == q.lockTime && p.hashType == q.hashType
  {
    var p4, q4 := EncUInt(p.hashType, 4), EncUInt(q.hashType, 4);
    var p3, q3 := Then(EncUInt(p.lockTime, 4), p4), Then(EncUInt(q.lockTime, 4), q4);
    var p2, q2 := Then(EncHex(p.hashOutputs, 32), p3), Then(EncHex(q.hashOutputs, 32), q3);
    var p1, q1 := Then(EncUInt(p.sequence, 4), p2), Then(EncUInt(q.sequence, 4), q2);
    var p0, q0 := Then(EncUInt64(p.value), p1), Then(EncUInt64(q.value), q1);
    SizedSplits(p.scriptCode, q.scriptCode, p0.value, q0.value);
    FieldSplits(EncUInt64(p.value), EncUInt64(q.value), p1, q1);
    FieldSplits(EncUInt(p.sequence, 4), EncUInt(q.sequence, 4), p2, q2);
    FieldSplits(EncHex(p.hashOutputs, 32), EncHex(q.hashOutputs, 32), p3, q3);
    FieldSplits(EncUInt(p.lockTime, 4), EncUInt(q.lockTime, 4), p4, q4);
    UInt64Injective(p.value, q.value);
    UIntInjective(p.sequence, q.sequence, 4);
    UIntInjective(p.lockTime, q.lockTime, 4);
    UIntInjective(p.hashType, q.hashType, 4);
  }

  /** The layout determines every field. */
  lemma ProgramInjective(p: WitnessProgram, q: WitnessProgram)
    requires EncProgram(p).Some? && EncProgram(p) == EncProgram(q)
    ensures p == q
  {
    var p4, q4 := EncProgramTail(p), EncProgramTail(q);
    var p3, q3 := Then(EncUInt(p.outpoint.index, 4), p4), Then(EncUInt(q.outpoint.index, 4), q4);
    var p2, q2 := Then(EncHexReversed(p.outpoint.txid, 32), p3), Then(EncHexReversed(q.outpoint.txid, 32), q3);
    var p1, q1 := Then(EncHex(p.hashSequence, 32), p2), Then(EncHex(q.hashSequence, 32), q2);
    var p0, q0 := Then(EncHex(p.hashPrevouts, 32), p1), Then(EncHex(q.hashPrevouts, 32), q1);
    FieldSplits(EncUInt(p.version, 4), EncUInt(q.version, 4), p0, q0);
    FieldSplits(EncHex(p.hashPrevouts, 32), EncHex(q.hashPrevouts, 32), p1, q1);
    FieldSplits(EncHex(p.hashSequence, 32), EncHex(q.hashSequence, 32), p2, q2);
    FieldSplits(EncHexReversed(p.outpoint.txid, 32), EncHexReversed(q.outpoint.txid, 32), p3, q3);
    FieldSplits(EncUInt(p.outpoint.index, 4), EncUInt(q.outpoint.index, 4), p4, q4);
    UIntInjective(p.version, q.version, 4);
    UIntInjective(p.outpoint.index, q.outpoint.index, 4);
    ReversedInjective(p.outpoint.txid, q.outpoint.txid);
    ProgramTailInjective(p, q);
  }

  /** Two preimages are equal, for ids of the same lengths, exactly when they commit to the same: the version, the
      ordered outpoints, the ordered sequences, the outputs, the lock time, the signed outpoint with its sequence, the
      script code and the value. */
  lemma PreimageTheorem(h: Hash, t: Tx, i: nat, code: seq<byte>, value: int, u: Tx, j: nat, code': seq<byte>,
                        value': int)
    requires i < |t.vin| && j < |u.vin| && NoCollision(h, t, u)
    requires Preimage(h, t, i, code, value, SIGHASH_ALL).Some?
    ensures Preimage(h, t, i, code, value, SIGHASH_ALL) == Preimage(h, u, j, code', value', SIGHASH_ALL)
            && SameTxidLengths(Outpoints(t.vin), Outpoints(u.vin))
       <==> Committed(t, i, code, value) == Committed(u, j, code', value')
  {
    if Preimage(h, t, i, code, value, SIGHASH_ALL) == Preimage(h, u, j, code', value', SIGHASH_ALL) {
      ProgramInjective(Program(h, t, i, code, value, SIGHASH_ALL).value,
                       Program(h, u, j, code', value', SIGHASH_ALL).value);
      OutpointsSplitIff(Outpoints(t.vin), Outpoints(u.vin));
      SequencesSplitOnce(Sequences(t.vin), Sequences(u.vin));
      OutputsSplitOnce(t.version, t.vout, u.vout);
    }
    if Committed(t, i, code, value) == Committed(u, j, code', value') {
      OutputsByNorm(t.version, t.vout);
      OutputsByNorm(u.version, u.vout);
    }
  }

  /** The same for what is signed, if the hash does not confuse the two preimages either. */
  lemma SignedHashTheorem(h: Hash, t: Tx, i: nat, code: seq<byte>, value: int, u: Tx, j: nat, code': seq<byte>,
                          value': int)
    requires i < |t.vin| && j < |u.vin| && NoCollision(h, t, u)
    requires Preimage(h, t, i, code, value, SIGHASH_ALL).Some?
    requires Apart(h, Preimage(h, t, i, code, value, SIGHASH_ALL), Preimage(h, u, j, code', value', SIGHASH_ALL))
    ensures (Hashed(h, Preimage(h, t, i, code, value, SIGHASH_ALL))
             == Hashed(h, Preimage(h, u, j, code', value', SIGHASH_ALL))
             && SameTxidLengths(Outpoints(t.vin), Outpoints(u.vin)))
       <==> Committed(t, i, code, value) == Committed(u, j, code', value')
  {
    PreimageTheorem(h, t, i, code, value, u, j, code', value');
  }

  /** Ids of 32 bytes, as every real one has, always have the same lengths when the preimages are equal. */
  lemma LongTxidsHaveSameLengths(h: Hash, t: Tx, i: nat, code: seq<byte>, value: int, u: Tx, j: nat, code': seq<byte>,
                                 value': int)
    requires i < |t.vin| && j < |u.vin| && NoCollision(h, t, u)
    requires forall k :: 0 <= k < |t.vin| ==> |t.vin[k].txid| == 32
    requires forall k :: 0 <= k < |u.vin| ==> |u.vin[k].txid| == 32
    requires Preimage(h, t, i, code, value, SIGHASH_ALL).Some?
    requires Preimage(h, t, i, code, value, SIGHASH_ALL) == Preimage(h, u, j, code', value', SIGHASH_ALL)
    ensures SameTxidLengths(Outpoints(t.vin), Outpoints(u.vin))
  {
    ProgramInjective(Program(h, t, i, code, value, SIGHASH_ALL).value,
                     Program(h, u, j, code', value', SIGHASH_ALL).value);
    SequencesSplitOnce(Sequences(t.vin), Sequences(u.vin));
  }

  lemma {:induction false} ReversedZeros(n: nat)
    ensures Reversed(Zeros(n)) == Zeros(n)
    decreases n
  {
    if n > 0 {
      assert Zeros(n)[1..] == Zeros(n - 1);
      ReversedZeros(n - 1);
      assert Zeros(n - 1) + [0] == Zeros(n);
    }
  }

  lemma ZeroOutpoint(n: nat)
    ensures EncOutpoint(Outpoint(Zeros(n), 0)) == Some(Zeros(n + 4))
  {
    ReversedZeros(n);
    assert LE(0, 4) == Zeros(4);
    Pow256Values();
    assert Zeros(n) + Zeros(4) == Zeros(n + 4);
  }

  function ZeroVin(n: nat): Vin {
    Vin(Zeros(n), 0, [], 0)
  }

  /** Behind any outpoint, two zero outpoints whose ids have 64 bytes together write the same, however those are
      split. */
  lemma ZeroOutpoints(o: Outpoint, a: nat, b: nat)
    ensures EncAll(OUTPOINT_CODEC, [o, Outpoint(Zeros(a), 0), Outpoint(Zeros(b), 0)])
      == Then(EncOutpoint(o), Some(Zeros(a + b + 8)))
  {
    var x, y := Outpoint(Zeros(a), 0), Outpoint(Zeros(b), 0);
    ZeroOutpoint(a);
    ZeroOutpoint(b);
    assert [o, x, y][1..] == [x, y] && [x, y][1..] == [y] && [y][1..] == [];
    assert EncAll(OUTPOINT_CODEC, [y]) == Then(EncOutpoint(y), Some([]));
    assert Zeros(b + 4) + [] == Zeros(b + 4);
    assert Zeros(a + 4) + Zeros(b + 4) == Zeros(a + b + 8);
  }

  lemma TxidsDiffer(v: seq<Vin>, w: seq<Vin>)
    requires |v| > 1 && |w| > 1 && |v[1].txid| != |w[1].txid|
    ensures Outpoints(v) != Outpoints(w)
  {
    assert |Outpoints(v)[1].txid| != |Outpoints(w)[1].txid|;
  }

  /** The condition is needed. With ids of `a` and `64 - a` bytes a transaction has other outpoints than one with
      ids of 32 bytes, and yet its preimage, whatever the hash. */
  lemma UncheckedTxidsCollide(h: Hash, t: Tx, u: Tx, a: nat, code: seq<byte>, value: int)
    requires |t.vin| == 3 && t.vin[1] == t.vin[2] == ZeroVin(32) && a <= 64 && a != 32
    requires u == t.(vin := [t.vin[0], ZeroVin(a), ZeroVin(64 - a)])
    ensures Outpoints(t.vin) != Outpoints(u.vin)
    ensures Preimage(h, t, 0, code, value, SIGHASH_ALL) == Preimage(h, u, 0, code, value, SIGHASH_ALL)
  {
    TxidsDiffer(t.vin, u.vin);
    SameCodes(t.vin, u.vin, a);
    SamePreimage(h, t, u, code, value);
  }

  /** The preimage sees the inputs only through their codes. */
  lemma SamePreimage(h: Hash, t: Tx, u: Tx, code: seq<byte>, value: int)
    requires t.vin != [] && u.vin != [] && u == t.(vin := u.vin) && u.vin[0] == t.vin[0]
    requires EncAll(OUTPOINT_CODEC, Outpoints(t.vin)) == EncAll(OUTPOINT_CODEC, Outpoints(u.vin))
    requires Sequences(t.vin) == Sequences(u.vin)
    ensures Preimage(h, t, 0, code, value, SIGHASH_ALL) == Preimage(h, u, 0, code, value, SIGHASH_ALL)
  {
  }

  lemma SameCodes(v: seq<Vin>, w: seq<Vin>, a: nat)
    requires |v| == 3 && v[1] == v[2] == ZeroVin(32) && a <= 64 && w == [v[0], ZeroVin(a), ZeroVin(64 - a)]
    ensures EncAll(OUTPOINT_CODEC, Outpoints(v)) == EncAll(OUTPOINT_CODEC, Outpoints(w)) && Sequences(v) == Sequences(w)
  {
    ZeroInputs(v, 32, 32);
    ZeroInputs(w, a, 64 - a);
  }

  lemma ZeroInputs(v: seq<Vin>, a: nat, b: nat)
    requires |v| == 3 && v[1] == ZeroVin(a) && v[2] == ZeroVin(b)
    ensures EncAll(OUTPOINT_CODEC, Outpoints(v))
      == Then(EncOutpoint(Outpoint(v[0].txid, v[0].index)), Some(Zeros(a + b + 8)))
    ensures Sequences(v) == [v[0].sequence, 0, 0]
  {
    var o := Outpoint(v[0].txid, v[0].index);
    assert Outpoints(v) == [o, Outpoint(Zeros(a), 0), Outpoint(Zeros(b), 0)];
    ZeroOutpoints(o, a, b);
  }

  // Signing.

  /** The operations of a script that is looked at; every other one is `Other`. */
  datatype Op = Op0 | PushData(data: seq<byte>) | Other

  datatype InputOption = InputOption(prevoutStack: seq<Op>, prevoutValue: int, publicKey: seq<byte>,
                                     signature: seq<byte> -> seq<byte>, witnessScript: Option<seq<byte>>)

  /** `isV0P2WPKH`: a key that does not match the program is refused, hence no answer. */
  function IsV0P2WPKH(hash160: Hash, o: InputOption): Option<bool> {
    if |o.prevoutStack| != 2 || !o.prevoutStack[0].Op0? || !o.prevoutStack[1].PushData?
      || |o.prevoutStack[1].data| != 20
    then Some(false)
    else if hash160(o.publicKey) == o.prevoutStack[1].data then Some(true)
    else None
  }

  /** The script of a pay-to-public-key-hash. */
  function KeyHashScript(pubkeyHash: seq<byte>): seq<byte> {
    [0x76, 0xa9, 0x14] + pubkeyHash + [0x88, 0xac]
  }

  function ScriptCode(hash160: Hash, o: InputOption): Option<seq<byte>> {
    if o.witnessScript.Some? then o.witnessScript
    else if IsV0P2WPKH(hash160, o) == Some(true) then Some(KeyHashScript(hash160(o.publicKey)))
    else None
  }

  /** A script that is given is used; a guessed one is the one of exactly the key hash the output pays to. */
  lemma GuessedScriptIsPaidTo(hash160: Hash, o: InputOption)
    ensures o.witnessScript.Some? ==> ScriptCode(hash160, o) == o.witnessScript
    ensures o.witnessScript.None? ==>
      (ScriptCode(hash160, o).Some? <==>
         |hash160(o.publicKey)| == 20 && o.prevoutStack == [Op0, PushData(hash160(o.publicKey))])
    ensures o.witnessScript.None? && ScriptCode(hash160, o).Some? ==>
      var code := ScriptCode(hash160, o).value;
      && |o.prevoutStack| == 2 && o.prevoutStack[1].PushData? && |code| == 25
      && code[0] == 0x76 && code[1] == 0xa9 && code[2] == 20 && code[3..23] == o.prevoutStack[1].data
      && code[23] == 0x88 && code[24] == 0xac
  {
    if |o.prevoutStack| == 2 {
      assert o.prevoutStack == [o.prevoutStack[0], o.prevoutStack[1]];
    }
  }

  /** The witness of input `i`: its signature with the hash type behind it, and the public key. */
  function InputWitness(h: Hash, hash160: Hash, t: Tx, i: nat, o: InputOption, hashType: int): Option<Witness>
    requires i < |t.vin|
  {
    var code := ScriptCode(hash160, o);
    if code.None? then None
    else
      var p := Preimage(h, t, i, code.value, o.prevoutValue, hashType);
      if p.None? then None else Some(Witness([o.signature(h(p.value)) + [1], o.publicKey]))
  }

  predicate Signable(t: Tx, inputs: seq<InputOption>, checkLockTime: bool) {
    |t.vin| != 0 && |t.vin| == |inputs| && (checkLockTime ==> t.lockTime == 0)
  }

  /** The buffer holds all codes at the end of the loop. */
  lemma AllWritten<T>(c: Codec<T>, xs: seq<T>, bytes: seq<byte>)
    requires B.Writes(EncAll(c, xs[..|xs|]), true, [], bytes)
    ensures EncAll(c, xs) == Some(bytes)
  {
    assert xs[..|xs|] == xs && [] + EncAll(c, xs).value == EncAll(c, xs).value;
  }

  lemma NoneWritten<T>(c: Codec<T>, xs: seq<T>)
    ensures B.Writes(EncAll(c, xs[..0]), true, [], [])
  {
  }

  method WriteOutpoint(v: Vin, b: SmartBuffer) returns (ok: bool)
    requires b.Valid()
    modifies b`bytes
    ensures b.Valid() && B.Writes(EncOutpoint(Outpoint(v.txid, v.index)), ok, old(b.bytes), b.bytes)
  {
    ghost var b0 := b.bytes;
    b.Write(Reversed(v.txid));
    ghost var b1 := b.bytes;
    ok := b.WriteUInt(v.index, 4);
    B.WritesThen(Some(Reversed(v.txid)), EncUInt(v.index, 4), ok, b0, b1, b.bytes);
  }

  method HashPrevouts(h: Hash, vin: seq<Vin>) returns (r: Option<seq<byte>>)
    ensures r == Hashed(h, EncAll(OUTPOINT_CODEC, Outpoints(vin)))
  {
    var buffer := new SmartBuffer([]);
    ghost var c, xs := OUTPOINT_CODEC, Outpoints(vin);
    NoneWritten(c, xs);
    for i := 0 to |vin|
      invariant buffer.Valid() && B.Writes(EncAll(c, xs[..i]), true, [], buffer.bytes)
    {
      ghost var before := buffer.bytes;
      var ok := WriteOutpoint(vin[i], buffer);
      if !ok {
        B.EncAllFails(c, xs, i);
        return None;
      }
      B.OneMore(c, xs, i, [], before, buffer.bytes);
    }
    AllWritten(c, xs, buffer.bytes);
    r := Some(h(buffer.bytes));
  }

  method HashSequence(h: Hash, vin: seq<Vin>) returns (r: Option<seq<byte>>)
    ensures r == Hashed(h, EncAll(SEQUENCE_CODEC, Sequences(vin)))
  {
    var buffer := new SmartBuffer([]);
    ghost var c, xs := SEQUENCE_CODEC, Sequences(vin);
    NoneWritten(c, xs);
    for i := 0 to |vin|
      invariant buffer.Valid() && B.Writes(EncAll(c, xs[..i]), true, [], buffer.bytes)
    {
      ghost var before := buffer.bytes;
      var ok := buffer.WriteUInt(vin[i].sequence, 4);
      assert B.Writes(c.enc(xs[i]), ok, before, buffer.bytes);
      if !ok {
        B.EncAllFails(c, xs, i);
        return None;
      }
      B.OneMore(c, xs, i, [], before, buffer.bytes);
    }
    AllWritten(c, xs, buffer.bytes);
    r := Some(h(buffer.bytes));
  }

  method HashOutputs(h: Hash, version: int, vout: seq<Vout>) returns (r: Option<seq<byte>>)
    ensures r == Hashed(h, EncAll(VoutCodec(version), vout))
  {
    var buffer := new SmartBuffer([]);
    ghost var c := VoutCodec(version);
    NoneWritten(c, vout);
    for i := 0 to |vout|
      invariant buffer.Valid() && B.Writes(EncAll(c, vout[..i]), true, [], buffer.bytes)
    {
      ghost var before := buffer.bytes;
      var ok := B.WriteVout(vout[i], version, buffer);
      if !ok {
        B.EncAllFails(c, vout, i);
        return None;
      }
      B.OneMore(c, vout, i, [], before, buffer.bytes);
    }
    AllWritten(c, vout, buffer.bytes);
    r := Some(h(buffer.bytes));
  }

  /** All values, or nothing if one is missing. */
  function AllSome<T>(xs: seq<Option<T>>): Option<seq<T>> {
    if xs == [] then Some([])
    else
      var init, last := AllSome(xs[..|xs| - 1]), xs[|xs| - 1];
      if init.None? || last.None? then None else Some(init.value + [last.value])
  }

  lemma {:induction false} AllSomeIff<T>(xs: seq<Option<T>>)
    ensures AllSome(xs).Some? <==> forall i :: 0 <= i < |xs| ==> xs[i].Some?
    ensures AllSome(xs).Some? ==> |AllSome(xs).value| == |xs|
    ensures AllSome(xs).Some? ==> forall i :: 0 <= i < |xs| ==> xs[i] == Some(AllSome(xs).value[i])
    decreases |xs|
  {
    if xs != [] {
      var init := xs[..|xs| - 1];
      AllSomeIff(init);
      assert forall i :: 0 <= i < |init| ==> init[i] == xs[i];
    }
  }

  function InputWitnesses(h: Hash, hash160: Hash, t: Tx, inputs: seq<InputOption>,
                          hashType: int): (r: seq<Option<Witness>>)
    requires |t.vin| == |inputs|
    ensures |r| == |inputs|
  {
    seq(|inputs|, i requires 0 <= i < |inputs| => InputWitness(h, hash160, t, i, inputs[i], hashType))
  }

  /** A signed transaction has the transaction's own fields, marker 0 and flag 1, and for each input its witness. */
  function Signed(h: Hash, hash160: Hash, t: Tx, inputs: seq<InputOption>, hashType: int,
                  checkLockTime: bool): Option<Tx>
  {
    if !Signable(t, inputs, checkLockTime) then None
    else
      var ws := AllSome(InputWitnesses(h, hash160, t, inputs, hashType));
      if ws.None? then None else Some(SegWit(t.version, 0, 1, t.vin, t.vout, ws.value, t.lockTime))
  }

  /** Signing is refused exactly when the request is not valid or some input cannot be signed. */
  lemma SignedIff(h: Hash, hash160: Hash, t: Tx, inputs: seq<InputOption>, hashType: int, checkLockTime: bool)
    ensures Signed(h, hash160, t, inputs, hashType, checkLockTime).Some?
       <==> Signable(t, inputs, checkLockTime)
            && forall i :: 0 <= i < |t.vin| ==> InputWitness(h, hash160, t, i, inputs[i], hashType).Some?
  {
    if Signable(t, inputs, checkLockTime) {
      var ws := InputWitnesses(h, hash160, t, inputs, hashType);
      AllSomeIff(ws);
      assert forall i :: 0 <= i < |ws| ==> ws[i] == InputWitness(h, hash160, t, i, inputs[i], hashType);
    }
  }

  /** A signed transaction holds one witness per input, so it is told apart from a legacy one and reads back as
      itself. */
  lemma SignedReadsBack(h: Hash, hash160: Hash, t: Tx, inputs: seq<InputOption>, hashType: int, checkLockTime: bool,
                        rest: seq<byte>)
    requires Signed(h, hash160, t, inputs, hashType, checkLockTime).Some?
    ensures var s := Signed(h, hash160, t, inputs, hashType, checkLockTime).value;
      Blocks.Distinct(s) && (Blocks.EncTx(s).Some? ==>
        Blocks.DecTx(Blocks.EncTx(s).value + rest) == Done(Blocks.NormTx(s), rest))
  {
    var s := Signed(h, hash160, t, inputs, hashType, checkLockTime).value;
    AllSomeIff(InputWitnesses(h, hash160, t, inputs, hashType));
    if Blocks.EncTx(s).Some? {
      Blocks.TxRoundTrip(s, rest);
    }
  }

  lemma OneMoreWitness<T>(xs: seq<Option<T>>, i: nat)
    requires i < |xs| && AllSome(xs[..i]).Some?
    ensures xs[i].Some? ==> AllSome(xs[..i + 1]) == Some(AllSome(xs[..i]).value + [xs[i].value])
    ensures xs[i].None? ==> AllSome(xs).None?
  {
    assert xs[..i + 1][..i] == xs[..i];
    AllSomeIff(xs);
  }

  method Sign(h: Hash, hash160: Hash, t: Tx, inputs: seq<InputOption>, hashType: int, checkLockTime: bool)
    returns (r: Option<Tx>)
    ensures r == Signed(h, hash160, t, inputs, hashType, checkLockTime)
  {
    if !Signable(t, inputs, checkLockTime) {
      return None;
    }
    var witnesses: seq<Witness> := [];
    ghost var ws := InputWitnesses(h, hash160, t, inputs, hashType);
    for i := 0 to |t.vin|
      invariant AllSome(ws[..i]) == Some(witnesses)
    {
      var w := SignInput(h, hash160, t, i, inputs, hashType);
      OneMoreWitness(ws, i);
      if w.None? {
        return None;
      }
      witnesses := witnesses + [w.value];
    }
    assert ws[..|t.vin|] == ws;
    r := Some(SegWit(t.version, 0, 1, t.vin, t.vout, witnesses, t.lockTime));
  }

  method SignInput(h: Hash, hash160: Hash, t: Tx, i: nat, inputs: seq<InputOption>, hashType: int)
    returns (w: Option<Witness>)
    requires i < |t.vin| == |inputs|
    ensures w == InputWitnesses(h, hash160, t, inputs, hashType)[i]
  {
    if hashType != SIGHASH_ALL {
      return None;
    }
    var hashPrevouts := HashPrevouts(h, t.vin);
    var hashSequence := HashSequence(h, t.vin);
    var code := ScriptCode(hash160, inputs[i]);
    var hashOutputs := HashOutputs(h, t.version, t.vout);
    if hashPrevouts.None? || hashSequence.None? || code.None? || hashOutputs.None? {
      return None;
    }
    var preimage := EncProgram(WitnessProgram(t.version, hashPrevouts.value, hashSequence.value,
      Outpoint(t.vin[i].txid, t.vin[i].index), code.value, inputs[i].prevoutValue, t.vin[i].sequence, hashOutputs.value,
      t.lockTime, hashType));
    if preimage.None? {
      return None;
    }
    w := Some(Witness([inputs[i].signature(h(preimage.value)) + [1], inputs[i].publicKey]));
  }
}
