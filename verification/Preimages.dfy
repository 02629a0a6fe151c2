/** The bytes that are hashed and signed, by position, as the sections "Specification" of BIP 143 and of BIP 144 order
    them. */
module Preimages {
  import opened Wrappers
  import opened Bytes
  import opened Composer
  import opened Transactions
  import opened Layouts
  import opened Signing

  /** The hash of the previous outputs at 4, that of the sequences at 36, the outpoint at 68, the script behind its
      length at 104; then value, sequence, the hash of the outputs, lock time and hash type, 52 bytes up to the end. */
  predicate ProgramAt(s: seq<byte>, p: WitnessProgram) {
    var m := 104 + SizedLength(p.scriptCode);
    && |p.hashPrevouts| == 32 && |p.hashSequence| == 32 && |p.hashOutputs| == 32 && |s| == m + 52
    && NumberAt(s, 0, 4, p.version) && s[4..36] == p.hashPrevouts && s[36..68] == p.hashSequence
    && HashAt(s, 68, p.outpoint.txid) && NumberAt(s, 100, 4, p.outpoint.index) && SizedAt(s, 104, p.scriptCode)
    && NumberAt(s, m, 8, p.value) && NumberAt(s, m + 8, 4, p.sequence) && s[m + 12..m + 44] == p.hashOutputs
    && NumberAt(s, m + 44, 4, p.lockTime) && NumberAt(s, m + 48, 4, p.hashType)
  }

  predicate Hash32At(s: seq<byte>, at: nat, b: seq<byte>) {
    |b| == 32 && BytesAt(s, at, b)
  }

  lemma HexIff(b: seq<byte>, s: seq<byte>, at: nat)
    ensures CodeAt(EncHex(b, 32), s, at) == Hash32At(s, at, b) && HasLength(EncHex(b, 32), 32)
  {
  }

  function EncEnd(p: WitnessProgram): Option<seq<byte>> {
    Then(EncUInt(p.sequence, 4), Then(EncHex(p.hashOutputs, 32), Then(EncUInt(p.lockTime, 4), EncUInt(p.hashType, 4))))
  }

  predicate EndAt(s: seq<byte>, at: nat, p: WitnessProgram) {
    && NumberAt(s, at, 4, p.sequence) && Hash32At(s, at + 4, p.hashOutputs)
    && NumberAt(s, at + 36, 4, p.lockTime) && NumberAt(s, at + 40, 4, p.hashType)
  }

  lemma EndIff(p: WitnessProgram, s: seq<byte>, at: nat)
    ensures CodeAt(EncEnd(p), s, at) == EndAt(s, at, p) && HasLength(EncEnd(p), 44)
  {
    NumberIff(p.sequence, 4, s, at);
    HexIff(p.hashOutputs, s, at + 4);
    NumberIff(p.lockTime, 4, s, at + 36);
    NumberIff(p.hashType, 4, s, at + 40);
    FourAt(EncUInt(p.sequence, 4), EncHex(p.hashOutputs, 32), EncUInt(p.lockTime, 4), EncUInt(p.hashType, 4),
           s, at, at + 4, at + 36, at + 40, at + 44);
  }

  function EncValue(p: WitnessProgram): Option<seq<byte>> {
    Then(EncUInt64(p.value), EncEnd(p))
  }

  predicate ValueAt(s: seq<byte>, at: nat, p: WitnessProgram) {
    NumberAt(s, at, 8, p.value) && EndAt(s, at + 8, p)
  }

  lemma ValueIff(p: WitnessProgram, s: seq<byte>, at: nat)
    ensures CodeAt(EncValue(p), s, at) == ValueAt(s, at, p) && HasLength(EncValue(p), 52)
  {
    UInt64Iff(p.value, s, at);
    EndIff(p, s, at + 8);
    ThenAt(EncUInt64(p.value), EncEnd(p), s, at, 8);
  }

  predicate TailAt(s: seq<byte>, at: nat, p: WitnessProgram) {
    SizedAt(s, at, p.scriptCode) && ValueAt(s, at + SizedLength(p.scriptCode), p)
  }

  lemma TailIsThen(p: WitnessProgram)
    ensures EncProgramTail(p) == Then(EncSized(p.scriptCode), EncValue(p))
  {
  }

  lemma TailAtIs(p: WitnessProgram, s: seq<byte>, at: nat, m: nat)
    requires m == at + SizedLength(p.scriptCode)
    ensures TailAt(s, at, p) == (SizedAt(s, at, p.scriptCode) && ValueAt(s, m, p))
  {
  }

  lemma TailIff(p: WitnessProgram, s: seq<byte>, at: nat)
    ensures CodeAt(EncProgramTail(p), s, at) == TailAt(s, at, p)
    ensures HasLength(EncProgramTail(p), SizedLength(p.scriptCode) + 52)
  {
    var m := at + SizedLength(p.scriptCode);
    ValueIff(p, s, m);
    TailIsThen(p);
    TailAtIs(p, s, at, m);
    BehindScript(p.scriptCode, EncValue(p), ValueAt(s, m, p), 52, s, at, m);
  }

  lemma FrontIff(p: WitnessProgram, e: Option<seq<byte>>, holds: bool, k: nat, s: seq<byte>)
    requires HasLength(e, k) && CodeAt(e, s, 68) == holds
    ensures var front := Then(EncUInt(p.version, 4), Then(EncHex(p.hashPrevouts, 32),
                              Then(EncHex(p.hashSequence, 32), e)));
      && CodeAt(front, s, 0) == (NumberAt(s, 0, 4, p.version) && Hash32At(s, 4, p.hashPrevouts)
                                 && Hash32At(s, 36, p.hashSequence) && holds)
      && HasLength(front, 68 + k)
  {
    NumberIff(p.version, 4, s, 0);
    HexIff(p.hashPrevouts, s, 4);
    HexIff(p.hashSequence, s, 36);
    FourAt(EncUInt(p.version, 4), EncHex(p.hashPrevouts, 32), EncHex(p.hashSequence, 32), e, s, 0, 4, 36, 68, 68 + k);
  }

  lemma ProgramAtIs(s: seq<byte>, p: WitnessProgram)
    requires |s| == 156 + SizedLength(p.scriptCode)
    ensures ProgramAt(s, p)
         == (NumberAt(s, 0, 4, p.version) && Hash32At(s, 4, p.hashPrevouts) && Hash32At(s, 36, p.hashSequence)
             && (HashAt(s, 68, p.outpoint.txid) && NumberAt(s, 100, 4, p.outpoint.index) && TailAt(s, 104, p)))
  {
  }

  lemma ProgramIsThen(p: WitnessProgram)
    ensures EncProgram(p) == Then(EncUInt(p.version, 4), Then(EncHex(p.hashPrevouts, 32),
      Then(EncHex(p.hashSequence, 32), EncBack(p))))
  {
  }

  function EncBack(p: WitnessProgram): Option<seq<byte>> {
    Then(EncHexReversed(p.outpoint.txid, 32), Then(EncUInt(p.outpoint.index, 4), EncProgramTail(p)))
  }

  /** The preimage is just the bytes that are laid out so. */
  lemma ProgramLayout(p: WitnessProgram, s: seq<byte>)
    ensures EncProgram(p) == Some(s) <==> ProgramAt(s, p)
  {
    var k := SizedLength(p.scriptCode);
    ProgramIsThen(p);
    TailIff(p, s, 104);
    IdAndIndex(p.outpoint.txid, p.outpoint.index, EncProgramTail(p), TailAt(s, 104, p), k + 52, s, 68);
    FrontIff(p, EncBack(p),
             HashAt(s, 68, p.outpoint.txid) && NumberAt(s, 100, 4, p.outpoint.index) && TailAt(s, 104, p), k + 88, s);
    WholeCode(EncProgram(p), k + 156, s);
    if |s| == k + 156 {
      ProgramAtIs(s, p);
    }
  }

  lemma WholeCode(e: Option<seq<byte>>, k: nat, s: seq<byte>)
    requires HasLength(e, k)
    ensures e == Some(s) <==> |s| == k && CodeAt(e, s, 0)
  {
    assert s[0..|s|] == s;
  }

  // The inner preimages.

  /** An id, last byte first, and the index behind it. */
  predicate OutpointAt(s: seq<byte>, at: nat, o: Outpoint) {
    Backwards(s, at, o.txid) && NumberAt(s, at + |o.txid|, 4, o.index)
  }

  function OutpointLength(o: Outpoint): nat {
    |o.txid| + 4
  }

  lemma OutpointIff(o: Outpoint, s: seq<byte>, at: nat)
    ensures CodeAt(EncOutpoint(o), s, at) <==> OutpointAt(s, at, o)
    ensures HasLength(EncOutpoint(o), OutpointLength(o))
  {
    BackwardsIff(o.txid, s, at);
    NumberIff(o.index, 4, s, at + |o.txid|);
    ThenAt(Some(Reversed(o.txid)), EncUInt(o.index, 4), s, at, |o.txid|);
  }

  predicate SequenceAt(s: seq<byte>, at: nat, n: int) {
    NumberAt(s, at, 4, n)
  }

  function SequenceLength(n: int): nat {
    4
  }

  /** All of `s`, one element behind the other. */
  predicate IsList<T>(holds: (seq<byte>, nat, T) -> bool, length: T -> nat, xs: seq<T>, s: seq<byte>) {
    |s| == ListLength(length, xs) && ListAt(holds, length, s, 0, xs)
  }

  lemma ListLayout<T(!new)>(c: Codec<T>, holds: (seq<byte>, nat, T) -> bool, length: T -> nat, xs: seq<T>, s: seq<byte>)
    requires LaysOut(c, holds, length)
    ensures EncAll(c, xs) == Some(s) <==> IsList(holds, length, xs, s)
  {
    ListIff(c, holds, length, xs, s, 0);
    WholeCode(EncAll(c, xs), ListLength(length, xs), s);
  }

  /** `o`, `q` and `r` are all outpoints, all sequences and all outputs of the transaction, in their order. */
  predicate AreInner(t: Tx, o: seq<byte>, q: seq<byte>, r: seq<byte>) {
    && IsList(OutpointAt, OutpointLength, Outpoints(t.vin), o)
    && IsList(SequenceAt, SequenceLength, Sequences(t.vin), q)
    && IsList(OutputAt(t.version), OutputLength(t.version), t.vout, r)
  }

  lemma OutpointsLayout(xs: seq<Outpoint>, s: seq<byte>)
    ensures EncAll(OUTPOINT_CODEC, xs) == Some(s) <==> IsList(OutpointAt, OutpointLength, xs, s)
  {
    forall x: Outpoint, u: seq<byte>, k: nat ensures ElementIff(OUTPOINT_CODEC, OutpointAt, OutpointLength, x, u, k) {
      OutpointIff(x, u, k);
    }
    ListLayout(OUTPOINT_CODEC, OutpointAt, OutpointLength, xs, s);
  }

  lemma SequencesLayout(xs: seq<int>, s: seq<byte>)
    ensures EncAll(SEQUENCE_CODEC, xs) == Some(s) <==> IsList(SequenceAt, SequenceLength, xs, s)
  {
    forall x: int, u: seq<byte>, k: nat ensures ElementIff(SEQUENCE_CODEC, SequenceAt, SequenceLength, x, u, k) {
      NumberIff(x, 4, u, k);
    }
    ListLayout(SEQUENCE_CODEC, SequenceAt, SequenceLength, xs, s);
  }

  lemma OutputsLayout(version: int, xs: seq<Vout>, s: seq<byte>)
    ensures EncAll(VoutCodec(version), xs) == Some(s) <==> IsList(OutputAt(version), OutputLength(version), xs, s)
  {
    var c, holds, length := VoutCodec(version), OutputAt(version), OutputLength(version);
    forall x: Vout, u: seq<byte>, k: nat ensures ElementIff(c, holds, length, x, u, k) {
      VoutIff(version, x, u, k);
    }
    ListLayout(c, holds, length, xs, s);
  }

  /** `s` is what is hashed for input `i`. */
  ghost predicate IsPreimage(h: Hash, t: Tx, i: nat, code: seq<byte>, value: int, s: seq<byte>)
    requires i < |t.vin|
  {
    exists o, q, r :: AreInner(t, o, q, r) && ProgramAt(s, ProgramOf(h, t, i, code, value, o, q, r))
  }

  function ProgramOf(h: Hash, t: Tx, i: nat, code: seq<byte>, value: int, o: seq<byte>, q: seq<byte>, r: seq<byte>):
    WitnessProgram
    requires i < |t.vin|
  {
    WitnessProgram(t.version, h(o), h(q), Outpoint(t.vin[i].txid, t.vin[i].index), code, value, t.vin[i].sequence, h(r),
                   t.lockTime, 1)
  }

  lemma InnerLayout(t: Tx, o: seq<byte>, q: seq<byte>, r: seq<byte>)
    ensures AreInner(t, o, q, r) <==>
      && EncAll(OUTPOINT_CODEC, Outpoints(t.vin)) == Some(o) && EncAll(SEQUENCE_CODEC, Sequences(t.vin)) == Some(q)
      && EncAll(VoutCodec(t.version), t.vout) == Some(r)
  {
    OutpointsLayout(Outpoints(t.vin), o);
    SequencesLayout(Sequences(t.vin), q);
    OutputsLayout(t.version, t.vout, r);
  }

  /** The preimage of an input is just what is laid out so, and there is none if nothing is. */
  lemma PreimageLayout(h: Hash, t: Tx, i: nat, code: seq<byte>, value: int, s: seq<byte>)
    requires i < |t.vin|
    ensures Preimage(h, t, i, code, value, SIGHASH_ALL) == Some(s) <==> IsPreimage(h, t, i, code, value, s)
  {
    if Preimage(h, t, i, code, value, SIGHASH_ALL) == Some(s) {
      var o, q := EncAll(OUTPOINT_CODEC, Outpoints(t.vin)).value, EncAll(SEQUENCE_CODEC, Sequences(t.vin)).value;
      var r := EncAll(VoutCodec(t.version), t.vout).value;
      InnerLayout(t, o, q, r);
      ProgramLayout(ProgramOf(h, t, i, code, value, o, q, r), s);
    }
    if o, q, r :| AreInner(t, o, q, r) && ProgramAt(s, ProgramOf(h, t, i, code, value, o, q, r)) {
      InnerLayout(t, o, q, r);
      ProgramLayout(ProgramOf(h, t, i, code, value, o, q, r), s);
    }
  }

  // The witnesses.

  /** The signature of the hashed preimage with one more byte behind it, which is 1 for the hash type ALL; then
      the key. */
  ghost predicate IsWitness(h: Hash, hash160: Hash, t: Tx, i: nat, o: InputOption, w: Witness)
    requires i < |t.vin|
  {
    && |w.scripts| == 2 && w.scripts[1] == o.publicKey && ScriptCode(hash160, o).Some?
    && exists s :: IsPreimage(h, t, i, ScriptCode(hash160, o).value, o.prevoutValue, s)
                   && w.scripts[0] == o.signature(h(s)) + [1]
  }

  lemma InputWitnessIs(h: Hash, hash160: Hash, t: Tx, i: nat, o: InputOption, code: seq<byte>, s: seq<byte>)
    requires i < |t.vin| && ScriptCode(hash160, o) == Some(code)
    requires Preimage(h, t, i, code, o.prevoutValue, SIGHASH_ALL) == Some(s)
    ensures InputWitness(h, hash160, t, i, o, SIGHASH_ALL) == Some(Witness([o.signature(h(s)) + [1], o.publicKey]))
  {
  }

  lemma WitnessIsLaidOut(h: Hash, hash160: Hash, t: Tx, i: nat, o: InputOption, w: Witness)
    requires i < |t.vin| && InputWitness(h, hash160, t, i, o, SIGHASH_ALL) == Some(w)
    ensures IsWitness(h, hash160, t, i, o, w)
  {
    var code := ScriptCode(hash160, o).value;
    var s := Preimage(h, t, i, code, o.prevoutValue, SIGHASH_ALL).value;
    InputWitnessIs(h, hash160, t, i, o, code, s);
    PreimageLayout(h, t, i, code, o.prevoutValue, s);
  }

  lemma TwoScripts(w: Witness, a: seq<byte>, b: seq<byte>)
    requires |w.scripts| == 2 && w.scripts[0] == a && w.scripts[1] == b
    ensures w == Witness([a, b])
  {
  }

  lemma LaidOutIsWitness(h: Hash, hash160: Hash, t: Tx, i: nat, o: InputOption, w: Witness)
    requires i < |t.vin| && IsWitness(h, hash160, t, i, o, w)
    ensures InputWitness(h, hash160, t, i, o, SIGHASH_ALL) == Some(w)
  {
    var code := ScriptCode(hash160, o).value;
    var s :| IsPreimage(h, t, i, code, o.prevoutValue, s) && w.scripts[0] == o.signature(h(s)) + [1];
    PreimageLayout(h, t, i, code, o.prevoutValue, s);
    InputWitnessIs(h, hash160, t, i, o, code, s);
    TwoScripts(w, o.signature(h(s)) + [1], o.publicKey);
  }

  lemma WitnessLayout(h: Hash, hash160: Hash, t: Tx, i: nat, o: InputOption, w: Witness)
    requires i < |t.vin|
    ensures InputWitness(h, hash160, t, i, o, SIGHASH_ALL) == Some(w) <==> IsWitness(h, hash160, t, i, o, w)
  {
    if InputWitness(h, hash160, t, i, o, SIGHASH_ALL) == Some(w) {
      WitnessIsLaidOut(h, hash160, t, i, o, w);
    }
    if IsWitness(h, hash160, t, i, o, w) {
      LaidOutIsWitness(h, hash160, t, i, o, w);
    }
  }

  lemma AllSomeIs<T>(xs: seq<Option<T>>, ys: seq<T>)
    ensures AllSome(xs) == Some(ys) <==> |xs| == |ys| && forall i :: 0 <= i < |xs| ==> xs[i] == Some(ys[i])
  {
    AllSomeIff(xs);
    if |xs| == |ys| && forall i :: 0 <= i < |xs| ==> xs[i] == Some(ys[i]) {
      assert AllSome(xs).value == ys;
    }
  }

  lemma WitnessesLayout(h: Hash, hash160: Hash, t: Tx, inputs: seq<InputOption>, ws: seq<Witness>)
    requires |t.vin| == |inputs|
    ensures AllSome(InputWitnesses(h, hash160, t, inputs, SIGHASH_ALL)) == Some(ws) <==>
      |ws| == |t.vin| && forall i :: 0 <= i < |t.vin| ==> IsWitness(h, hash160, t, i, inputs[i], ws[i])
  {
    var xs := InputWitnesses(h, hash160, t, inputs, SIGHASH_ALL);
    AllSomeIs(xs, ws);
    if |ws| == |t.vin| {
      forall i | 0 <= i < |t.vin| ensures xs[i] == Some(ws[i]) <==> IsWitness(h, hash160, t, i, inputs[i], ws[i]) {
        WitnessLayout(h, hash160, t, i, inputs[i], ws[i]);
      }
    }
  }

  lemma OnlyAllIsSigned(h: Hash, hash160: Hash, t: Tx, inputs: seq<InputOption>, hashType: int)
    requires |t.vin| == |inputs| != 0 && hashType != SIGHASH_ALL
    ensures AllSome(InputWitnesses(h, hash160, t, inputs, hashType)).None?
  {
    var xs := InputWitnesses(h, hash160, t, inputs, hashType);
    AllSomeIff(xs);
    assert xs[0] == InputWitness(h, hash160, t, 0, inputs[0], hashType) == None;
  }

  /** A signed transaction is the transaction with marker 0, flag 1 and, for each input, the witness that is laid out
      so. No transaction is signed for another hash type than ALL. */
  lemma SignedLayout(h: Hash, hash160: Hash, t: Tx, inputs: seq<InputOption>, hashType: int, checkLockTime: bool, s: Tx)
    ensures Signed(h, hash160, t, inputs, hashType, checkLockTime) == Some(s) <==>
      && |t.vin| != 0 && |t.vin| == |inputs| && (checkLockTime ==> t.lockTime == 0) && hashType == 1
      && s.SegWit? && s.marker == 0 && s.flag == 1 && s.version == t.version && s.lockTime == t.lockTime
      && s.vin == t.vin && s.vout == t.vout && |s.witnesses| == |t.vin|
      && forall i :: 0 <= i < |t.vin| ==> IsWitness(h, hash160, t, i, inputs[i], s.witnesses[i])
  {
    if Signable(t, inputs, checkLockTime) {
      if hashType != SIGHASH_ALL {
        OnlyAllIsSigned(h, hash160, t, inputs, hashType);
      } else if s.SegWit? {
        WitnessesLayout(h, hash160, t, inputs, s.witnesses);
      }
    }
  }
}
