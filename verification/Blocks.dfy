/** Blocks: a header, then transactions of both forms, told apart by one byte read ahead. */
module Blocks {
  import opened Wrappers
  import opened Bytes
  import opened Composer
  import opened Transactions
  import CompactSize

  datatype Header = Header(version: int, hashPrevBlock: seq<byte>, hashMerkleRoot: seq<byte>, time: int, bits: int,
                           stakeModifier: seq<byte>, height: int, mintedBlocks: int, signature: seq<byte>)

  datatype Block = Block(header: Header, transactions: seq<Tx>)

  /** The form a transaction is written in: only a zero marker asks for the witness form. */
  function EncTx(t: Tx): Option<seq<byte>> {
    if t.SegWit? && t.marker == 0 then EncSegWit(t) else EncLegacy(t.version, t.vin, t.vout, t.lockTime)
  }

  /** Four bytes are skipped, the fifth is looked at, and reading starts over: above zero it is the number of
      inputs of a legacy transaction, zero is the marker of the witness form. */
  function DecTx(s: seq<byte>): Parsed<Tx> {
    if |s| < 5 then Fail
    else if s[4] > 0 then DecLegacy(s)
    else DecSegWit(s)
  }

  /** What reading makes of a transaction: outputs of version 2 lose their token id. */
  function NormTx(t: Tx): Tx {
    t.(vout := NormAll(VoutCodec(t.version), t.vout))
  }

  /** A legacy transaction has an input; a witness transaction has marker 0 and one witness per input. */
  predicate Distinct(t: Tx) {
    match t
    case Legacy(_, vin, _, _) => |vin| > 0
    case SegWit(_, marker, _, vin, _, witnesses, _) => marker == 0 && |witnesses| == |vin|
  }

  predicate NoLostTokens(t: Tx) {
    t.version < 4 ==> forall i :: 0 <= i < |t.vout| ==> t.vout[i].tokenId == 0
  }

  /** The byte looked at is the first byte of the input count. */
  lemma CountByte(t: Tx, rest: seq<byte>)
    requires EncLegacy(t.version, t.vin, t.vout, t.lockTime).Some?
    ensures var s := EncLegacy(t.version, t.vin, t.vout, t.lockTime).value + rest;
      |s| >= 5 && (s[4] > 0 <==> |t.vin| > 0)
  {
    var tail := Then(EncCounted(VIN_CODEC, t.vin),
                     Then(EncCounted(VoutCodec(t.version), t.vout), EncUInt(t.lockTime, 4)));
    ThenSplit(EncUInt(t.version, 4), tail, rest);
    var s := EncLegacy(t.version, t.vin, t.vout, t.lockTime).value + rest;
    var n := CompactSize.Enc(|t.vin|).value;
    assert EncUInt(t.version, 4).value == LE(t.version, 4) && |LE(t.version, 4)| == 4;
    assert s[4] == tail.value[0] == n[0];
  }

  lemma MarkerByte(t: Tx, rest: seq<byte>)
    requires t.SegWit? && t.marker == 0 && EncSegWit(t).Some?
    ensures var s := EncSegWit(t).value + rest; |s| >= 5 && s[4] == 0
  {
    var d := EncWitnessed(t.version, t.vin, t.vout, t.witnesses, t.lockTime);
    var b := Then(EncUInt(t.marker, 1), Then(EncUInt(t.flag, 1), d));
    ThenSplit(EncUInt(t.version, 4), b, rest);
    assert |LE(t.version, 4)| == 4 && LE(0, 1) == [0];
    assert (EncSegWit(t).value + rest)[4] == b.value[0];
  }

  /** A transaction followed by any bytes reads as itself, up to lost token ids. */
  lemma TxRoundTrip(t: Tx, rest: seq<byte>)
    requires Distinct(t) && EncTx(t).Some?
    ensures DecTx(EncTx(t).value + rest) == Done(NormTx(t), rest)
  {
    if t.Legacy? {
      CountByte(t, rest);
      LegacyRoundTrip(t.version, t.vin, t.vout, t.lockTime, rest);
    } else {
      MarkerByte(t, rest);
      SegWitRoundTrip(t, rest);
    }
  }

  /** A transaction that is not distinct never reads as itself, whatever follows it. */
  lemma IndistinctIsLost(t: Tx, rest: seq<byte>)
    requires EncTx(t).Some? && !Distinct(t) && DecTx(EncTx(t).value + rest).Done?
    ensures DecTx(EncTx(t).value + rest).value != t
  {
    var s := EncTx(t).value + rest;
    if t.SegWit? && t.marker == 0 {
      MarkerByte(t, rest);
      WitnessPerInput(s);
    } else {
      CountByte(t, rest);
      MarkerIsTheFifthByte(s);
    }
  }

  /** Exactly the transactions that are distinct and lose no token id read as themselves. */
  lemma TxRoundTripsIff(t: Tx, rest: seq<byte>)
    requires EncTx(t).Some?
    ensures DecTx(EncTx(t).value + rest) == Done(t, rest) <==> Distinct(t) && NoLostTokens(t)
  {
    if Distinct(t) {
      TxRoundTrip(t, rest);
      NormTxIsIdentityIff(t);
    } else if DecTx(EncTx(t).value + rest).Done? {
      IndistinctIsLost(t, rest);
    }
  }

  lemma NormTxIsIdentityIff(t: Tx)
    ensures NormTx(t) == t <==> NoLostTokens(t)
  {
    var n := NormAll(VoutCodec(t.version), t.vout);
    if NoLostTokens(t) {
      assert n == t.vout;
    } else {
      var i :| 0 <= i < |t.vout| && t.vout[i].tokenId != 0;
      assert n[i] != t.vout[i];
    }
  }

  /** What is read in the witness form has one witness per input. */
  lemma WitnessPerInput(s: seq<byte>)
    requires |s| >= 5 && s[4] == 0
    ensures DecTx(s).Done? ==> DecTx(s).value.SegWit? && |DecTx(s).value.witnesses| == |DecTx(s).value.vin|
  {
    forall n: nat, r: seq<byte> ensures DecN(WITNESS_CODEC, n, r).Done? ==> |DecN(WITNESS_CODEC, n, r).value| == n {
      DecNCounts(WITNESS_CODEC, n, r);
    }
  }

  lemma {:induction false} DecNCounts<T>(c: Codec<T>, n: nat, s: seq<byte>)
    ensures DecN(c, n, s).Done? ==> |DecN(c, n, s).value| == n
    decreases n
  {
    if n > 0 && c.dec(s).Done? {
      DecNCounts(c, n - 1, c.dec(s).rest);
    }
  }

  /** What is read above zero is legacy, and what is read at zero has marker zero. */
  lemma MarkerIsTheFifthByte(s: seq<byte>)
    requires DecTx(s).Done?
    ensures s[4] > 0 ==> DecTx(s).value.Legacy?
    ensures s[4] == 0 ==> DecTx(s).value.SegWit? && DecTx(s).value.marker == 0
  {
    if s[4] == 0 {
      assert s[4..][..1] == [s[4]];
      FromLEOne(s[4]);
    }
  }

  // The header.

  function EncHeader(h: Header): Option<seq<byte>> {
    Then(EncUInt(h.version, 4), Then(EncHexReversed(h.hashPrevBlock, 32), Then(EncHexReversed(h.hashMerkleRoot, 32),
      Then(EncUInt(h.time, 4), EncHeaderTail(h)))))
  }

  function EncHeaderTail(h: Header): Option<seq<byte>> {
    Then(EncUInt(h.bits, 4), Then(EncHexReversed(h.stakeModifier, 32), Then(EncUInt64(h.height),
      Then(EncUInt64(h.mintedBlocks), EncSized(h.signature)))))
  }

  function DecHeader(s: seq<byte>): Parsed<Header> {
    match DecUInt(s, 4)
    case Fail => Fail
    case Done(version, s1) =>
      match DecHexReversed(s1, 32)
      case Fail => Fail
      case Done(prev, s2) =>
        match DecHexReversed(s2, 32)
        case Fail => Fail
        case Done(root, s3) =>
          match DecUInt(s3, 4)
          case Fail => Fail
          case Done(time, s4) => DecHeaderTail(version, prev, root, time, s4)
  }

  function DecHeaderTail(version: int, prev: seq<byte>, root: seq<byte>, time: int, s: seq<byte>): Parsed<Header> {
    match DecUInt(s, 4)
    case Fail => Fail
    case Done(bits, s1) =>
      match DecHexReversed(s1, 32)
      case Fail => Fail
      case Done(modifier, s2) =>
        match DecUInt64(s2)
        case Fail => Fail
        case Done(height, s3) =>
          match DecUInt64(s3)
          case Fail => Fail
          case Done(minted, s4) =>
            match DecSized(s4)
            case Fail => Fail
            case Done(signature, s5) =>
              Done(Header(version, prev, root, time, bits, modifier, height, minted, signature), s5)
  }

  lemma HeaderTailRoundTrip(h: Header, rest: seq<byte>)
    requires EncHeaderTail(h).Some?
    ensures DecHeaderTail(h.version, h.hashPrevBlock, h.hashMerkleRoot, h.time, EncHeaderTail(h).value + rest)
      == Done(h, rest)
  {
    var e := EncSized(h.signature);
    var d := Then(EncUInt64(h.mintedBlocks), e);
    var c := Then(EncUInt64(h.height), d);
    var b := Then(EncHexReversed(h.stakeModifier, 32), c);
    ThenSplit(EncUInt(h.bits, 4), b, rest);
    ThenSplit(EncHexReversed(h.stakeModifier, 32), c, rest);
    ThenSplit(EncUInt64(h.height), d, rest);
    ThenSplit(EncUInt64(h.mintedBlocks), e, rest);
    UIntRoundTrip(h.bits, 4, b.value + rest);
    HexReversedRoundTrip(h.stakeModifier, 32, c.value + rest);
    UInt64RoundTrip(h.height, d.value + rest);
    UInt64RoundTrip(h.mintedBlocks, e.value + rest);
    SizedRoundTrip(h.signature, rest);
  }

  lemma HeaderRoundTrip(h: Header, rest: seq<byte>)
    requires EncHeader(h).Some?
    ensures DecHeader(EncHeader(h).value + rest) == Done(h, rest)
  {
    var e := EncHeaderTail(h);
    var d := Then(EncUInt(h.time, 4), e);
    var c := Then(EncHexReversed(h.hashMerkleRoot, 32), d);
    var b := Then(EncHexReversed(h.hashPrevBlock, 32), c);
    ThenSplit(EncUInt(h.version, 4), b, rest);
    ThenSplit(EncHexReversed(h.hashPrevBlock, 32), c, rest);
    ThenSplit(EncHexReversed(h.hashMerkleRoot, 32), d, rest);
    ThenSplit(EncUInt(h.time, 4), e, rest);
    UIntRoundTrip(h.version, 4, b.value + rest);
    HexReversedRoundTrip(h.hashPrevBlock, 32, c.value + rest);
    HexReversedRoundTrip(h.hashMerkleRoot, 32, d.value + rest);
    UIntRoundTrip(h.time, 4, e.value + rest);
    HeaderTailRoundTrip(h, rest);
  }

  // The block.

  const TX_CODEC: Codec<Tx> := Codec(EncTx, DecTx, NormTx)

  function EncBlock(b: Block): Option<seq<byte>> {
    Then(EncHeader(b.header), EncCounted(TX_CODEC, b.transactions))
  }

  function DecBlock(s: seq<byte>): Parsed<Block> {
    match DecHeader(s)
    case Fail => Fail
    case Done(header, s1) =>
      match DecCounted(TX_CODEC, s1)
      case Fail => Fail
      case Done(transactions, s2) => Done(Block(header, transactions), s2)
  }

  lemma TransactionsRoundTrip(ts: seq<Tx>, rest: seq<byte>)
    requires EncCounted(TX_CODEC, ts).Some? && forall i :: 0 <= i < |ts| ==> Distinct(ts[i])
    ensures DecCounted(TX_CODEC, EncCounted(TX_CODEC, ts).value + rest) == Done(NormAll(TX_CODEC, ts), rest)
  {
    forall i | 0 <= i < |ts| ensures Law(TX_CODEC, ts[i]) {
      forall r | EncTx(ts[i]).Some? ensures DecTx(EncTx(ts[i]).value + r) == Done(NormTx(ts[i]), r) {
        TxRoundTrip(ts[i], r);
      }
    }
    CountedRoundTrip(TX_CODEC, ts, rest);
  }

  lemma NoneLost(ts: seq<Tx>)
    ensures NormAll(TX_CODEC, ts) == ts <==> forall i :: 0 <= i < |ts| ==> NoLostTokens(ts[i])
  {
    var n := NormAll(TX_CODEC, ts);
    forall i | 0 <= i < |ts| ensures n[i] == ts[i] <==> NoLostTokens(ts[i]) {
      NormTxIsIdentityIff(ts[i]);
    }
  }

  /** The block round trip: reading a written block followed by any bytes returns the block and leaves those bytes,
      up to the token ids that outputs of version 2 do not store. */
  lemma BlockRoundTrip(b: Block, rest: seq<byte>)
    requires EncBlock(b).Some? && forall i :: 0 <= i < |b.transactions| ==> Distinct(b.transactions[i])
    ensures DecBlock(EncBlock(b).value + rest) == Done(b.(transactions := NormAll(TX_CODEC, b.transactions)), rest)
  {
    ThenSplit(EncHeader(b.header), EncCounted(TX_CODEC, b.transactions), rest);
    HeaderRoundTrip(b.header, EncCounted(TX_CODEC, b.transactions).value + rest);
    TransactionsRoundTrip(b.transactions, rest);
  }

  lemma ReadBackIsDistinct(ts: seq<Tx>, rest: seq<byte>, left: seq<byte>)
    requires EncAll(TX_CODEC, ts).Some? && DecN(TX_CODEC, |ts|, EncAll(TX_CODEC, ts).value + rest) == Done(ts, left)
    ensures forall i :: 0 <= i < |ts| ==> Distinct(ts[i])
  {
    forall t, r | ReadsBack(TX_CODEC, t, r) ensures Distinct(t) && TX_CODEC.dec(TX_CODEC.enc(t).value + r).rest == r {
      TxReadBackIsDistinct(t, r);
    }
    AllReadBack(TX_CODEC, Distinct, ts, rest, left);
  }

  lemma TxReadBackIsDistinct(t: Tx, rest: seq<byte>)
    requires ReadsBack(TX_CODEC, t, rest)
    ensures Distinct(t) && TX_CODEC.dec(TX_CODEC.enc(t).value + rest).rest == rest
  {
    if !Distinct(t) {
      IndistinctIsLost(t, rest);
    }
    TxRoundTrip(t, rest);
  }

  /** The round trip is exact for precisely the blocks all of whose transactions are distinct and lose no token id. */
  lemma BlockRoundTripsIff(b: Block, rest: seq<byte>)
    requires EncBlock(b).Some?
    ensures DecBlock(EncBlock(b).value + rest) == Done(b, rest)
       <==> forall i :: 0 <= i < |b.transactions| ==> Distinct(b.transactions[i]) && NoLostTokens(b.transactions[i])
  {
    var ts := b.transactions;
    NoneLost(ts);
    if DecBlock(EncBlock(b).value + rest) == Done(b, rest) {
      ThenSplit(EncHeader(b.header), EncCounted(TX_CODEC, ts), rest);
      HeaderRoundTrip(b.header, EncCounted(TX_CODEC, ts).value + rest);
      ThenSplit(CompactSize.Enc(|ts|), EncAll(TX_CODEC, ts), rest);
      CompactSize.RoundTrip(|ts|, EncAll(TX_CODEC, ts).value + rest);
      ReadBackIsDistinct(ts, rest, rest);
    }
    if forall i :: 0 <= i < |ts| ==> Distinct(ts[i]) {
      BlockRoundTrip(b, rest);
    }
  }
}
