/** Transactions with and without witnesses, and blocks of both kinds. Amounts are whole satoshi, scripts are byte
    strings, and hashes are byte strings in display order. */
module Transactions {
  import opened Wrappers
  import opened Bytes
  import opened Composer
  import VarInt

  datatype Vin = Vin(txid: seq<byte>, index: int, script: seq<byte>, sequence: int)

  datatype Vout = Vout(value: int, script: seq<byte>, tokenId: nat)

  datatype Witness = Witness(scripts: seq<seq<byte>>)

  /** Either the legacy form or the witness form of a transaction. */
  datatype Tx =
    | Legacy(version: int, vin: seq<Vin>, vout: seq<Vout>, lockTime: int)
    | SegWit(version: int, marker: int, flag: int, vin: seq<Vin>, vout: seq<Vout>, witnesses: seq<Witness>,
             lockTime: int)

  function EncVin(v: Vin): Option<seq<byte>> {
    Then(EncHexReversed(v.txid, 32), Then(EncUInt(v.index, 4), Then(EncSized(v.script), EncUInt(v.sequence, 4))))
  }

  function DecVin(s: seq<byte>): Parsed<Vin> {
    match DecHexReversed(s, 32)
    case Fail => Fail
    case Done(txid, s1) =>
      match DecUInt(s1, 4)
      case Fail => Fail
      case Done(index, s2) =>
        match DecSized(s2)
        case Fail => Fail
        case Done(script, s3) =>
          match DecUInt(s3, 4)
          case Fail => Fail
          case Done(sequence, s4) => Done(Vin(txid, index, script, sequence), s4)
  }

  const VIN_CODEC: Codec<Vin> := Codec(EncVin, DecVin, v => v)

  lemma VinLaw(v: Vin)
    ensures Law(VIN_CODEC, v)
  {
    if EncVin(v).Some? {
      forall rest ensures DecVin(EncVin(v).value + rest) == Done(v, rest) {
        var d := EncUInt(v.sequence, 4);
        var c := Then(EncSized(v.script), d);
        var b := Then(EncUInt(v.index, 4), c);
        ThenSplit(EncHexReversed(v.txid, 32), b, rest);
        ThenSplit(EncUInt(v.index, 4), c, rest);
        ThenSplit(EncSized(v.script), d, rest);
        HexReversedRoundTrip(v.txid, 32, b.value + rest);
        UIntRoundTrip(v.index, 4, c.value + rest);
        SizedRoundTrip(v.script, d.value + rest);
        UIntRoundTrip(v.sequence, 4, rest);
      }
    }
  }

  /** Outputs of version 2 transactions do not store a token id; it reads as 0. */
  function EncVoutV2(v: Vout): Option<seq<byte>> {
    Then(EncUInt64(v.value), EncSized(v.script))
  }

  function DecVoutV2(s: seq<byte>): Parsed<Vout> {
    match DecUInt64(s)
    case Fail => Fail
    case Done(value, s1) =>
      match DecSized(s1)
      case Fail => Fail
      case Done(script, s2) => Done(Vout(value, script, 0), s2)
  }

  function EncVoutV4(v: Vout): Option<seq<byte>> {
    Then(EncVoutV2(v), VarInt.Enc(v.tokenId))
  }

  function DecVoutV4(s: seq<byte>): Parsed<Vout> {
    match DecVoutV2(s)
    case Fail => Fail
    case Done(v, s1) =>
      match VarInt.Dec(s1)
      case Fail => Fail
      case Done(tokenId, s2) => Done(v.(tokenId := tokenId), s2)
  }

  /** The layout of outputs depends on the version that was read or written before. */
  function VoutCodec(version: int): Codec<Vout> {
    if version < 4 then Codec(EncVoutV2, DecVoutV2, (v: Vout) => v.(tokenId := 0))
      else Codec(EncVoutV4, DecVoutV4, v => v)
  }

  lemma VoutV2RoundTrip(v: Vout, rest: seq<byte>)
    requires EncVoutV2(v).Some?
    ensures DecVoutV2(EncVoutV2(v).value + rest) == Done(v.(tokenId := 0), rest)
  {
    ThenSplit(EncUInt64(v.value), EncSized(v.script), rest);
    UInt64RoundTrip(v.value, EncSized(v.script).value + rest);
    SizedRoundTrip(v.script, rest);
  }

  lemma VoutLaw(version: int, v: Vout)
    ensures Law(VoutCodec(version), v)
    ensures VoutCodec(version).enc(v) != Some([])
  {
    if version < 4 && EncVoutV2(v).Some? {
      forall rest ensures DecVoutV2(EncVoutV2(v).value + rest) == Done(v.(tokenId := 0), rest) {
        VoutV2RoundTrip(v, rest);
      }
    }
    if version >= 4 && EncVoutV4(v).Some? {
      forall rest ensures DecVoutV4(EncVoutV4(v).value + rest) == Done(v, rest) {
        ThenSplit(EncVoutV2(v), VarInt.Enc(v.tokenId), rest);
        VoutV2RoundTrip(v, VarInt.Enc(v.tokenId).value + rest);
        VarInt.RoundTrip(v.tokenId, rest);
      }
    }
  }

  const SCRIPT_CODEC: Codec<seq<byte>> := Codec(EncSized, DecSized, b => b)

  function EncWitness(w: Witness): Option<seq<byte>> {
    EncCounted(SCRIPT_CODEC, w.scripts)
  }

  function DecWitness(s: seq<byte>): Parsed<Witness> {
    match DecCounted(SCRIPT_CODEC, s)
    case Fail => Fail
    case Done(scripts, rest) => Done(Witness(scripts), rest)
  }

  const WITNESS_CODEC: Codec<Witness> := Codec(EncWitness, DecWitness, w => w)

  lemma WitnessLaw(w: Witness)
    ensures Law(WITNESS_CODEC, w)
  {
    forall i | 0 <= i < |w.scripts| ensures Law(SCRIPT_CODEC, w.scripts[i]) {
      forall rest | EncSized(w.scripts[i]).Some?
        ensures DecSized(EncSized(w.scripts[i]).value + rest) == Done(w.scripts[i], rest)
      {
        SizedRoundTrip(w.scripts[i], rest);
      }
    }
    assert NormAll(SCRIPT_CODEC, w.scripts) == w.scripts;
    if EncWitness(w).Some? {
      forall rest ensures DecWitness(EncWitness(w).value + rest) == Done(w, rest) {
        CountedRoundTrip(SCRIPT_CODEC, w.scripts, rest);
      }
    }
  }

  // The legacy form.

  function EncLegacy(version: int, vin: seq<Vin>, vout: seq<Vout>, lockTime: int): Option<seq<byte>> {
    Then(EncUInt(version, 4),
         Then(EncCounted(VIN_CODEC, vin), Then(EncCounted(VoutCodec(version), vout), EncUInt(lockTime, 4))))
  }

  function DecLegacy(s: seq<byte>): Parsed<Tx> {
    match DecUInt(s, 4)
    case Fail => Fail
    case Done(version, s1) =>
      match DecCounted(VIN_CODEC, s1)
      case Fail => Fail
      case Done(vin, s2) =>
        match DecCounted(VoutCodec(version), s2)
        case Fail => Fail
        case Done(vout, s3) =>
          match DecUInt(s3, 4)
          case Fail => Fail
          case Done(lockTime, s4) => Done(Legacy(version, vin, vout, lockTime), s4)
  }

  lemma VinsRoundTrip(vin: seq<Vin>, rest: seq<byte>)
    requires EncCounted(VIN_CODEC, vin).Some?
    ensures DecCounted(VIN_CODEC, EncCounted(VIN_CODEC, vin).value + rest) == Done(vin, rest)
  {
    forall i | 0 <= i < |vin| ensures Law(VIN_CODEC, vin[i]) { VinLaw(vin[i]); }
    assert NormAll(VIN_CODEC, vin) == vin;
    CountedRoundTrip(VIN_CODEC, vin, rest);
  }

  lemma VoutsRoundTrip(version: int, vout: seq<Vout>, rest: seq<byte>)
    requires EncCounted(VoutCodec(version), vout).Some?
    ensures DecCounted(VoutCodec(version), EncCounted(VoutCodec(version), vout).value + rest)
         == Done(NormAll(VoutCodec(version), vout), rest)
  {
    forall i | 0 <= i < |vout| ensures Law(VoutCodec(version), vout[i]) { VoutLaw(version, vout[i]); }
    CountedRoundTrip(VoutCodec(version), vout, rest);
  }

  lemma LegacyRoundTrip(version: int, vin: seq<Vin>, vout: seq<Vout>, lockTime: int, rest: seq<byte>)
    requires EncLegacy(version, vin, vout, lockTime).Some?
    ensures DecLegacy(EncLegacy(version, vin, vout, lockTime).value + rest)
         == Done(Legacy(version, vin, NormAll(VoutCodec(version), vout), lockTime), rest)
  {
    var d := EncUInt(lockTime, 4);
    var c := Then(EncCounted(VoutCodec(version), vout), d);
    var b := Then(EncCounted(VIN_CODEC, vin), c);
    ThenSplit(EncUInt(version, 4), b, rest);
    ThenSplit(EncCounted(VIN_CODEC, vin), c, rest);
    ThenSplit(EncCounted(VoutCodec(version), vout), d, rest);
    UIntRoundTrip(version, 4, b.value + rest);
    VinsRoundTrip(vin, c.value + rest);
    VoutsRoundTrip(version, vout, d.value + rest);
    UIntRoundTrip(lockTime, 4, rest);
  }

  // The witness form.

  /** What follows version, marker and flag. */
  function EncWitnessed(version: int, vin: seq<Vin>, vout: seq<Vout>, witnesses: seq<Witness>,
                        lockTime: int): Option<seq<byte>>
  {
    Then(EncCounted(VIN_CODEC, vin), Then(EncCounted(VoutCodec(version), vout),
      Then(EncAll(WITNESS_CODEC, witnesses), EncUInt(lockTime, 4))))
  }

  /** As many witnesses are read as there are inputs. */
  function DecWitnessed(version: int, marker: int, flag: int, s: seq<byte>): Parsed<Tx> {
    match DecCounted(VIN_CODEC, s)
    case Fail => Fail
    case Done(vin, s1) =>
      match DecCounted(VoutCodec(version), s1)
      case Fail => Fail
      case Done(vout, s2) =>
        match DecN(WITNESS_CODEC, |vin|, s2)
        case Fail => Fail
        case Done(witnesses, s3) =>
          match DecUInt(s3, 4)
          case Fail => Fail
          case Done(lockTime, s4) => Done(SegWit(version, marker, flag, vin, vout, witnesses, lockTime), s4)
  }

  function EncSegWit(t: Tx): Option<seq<byte>>
    requires t.SegWit?
  {
    Then(EncUInt(t.version, 4), Then(EncUInt(t.marker, 1), Then(EncUInt(t.flag, 1),
      EncWitnessed(t.version, t.vin, t.vout, t.witnesses, t.lockTime))))
  }

  function DecSegWit(s: seq<byte>): Parsed<Tx> {
    match DecUInt(s, 4)
    case Fail => Fail
    case Done(version, s1) =>
      match DecUInt(s1, 1)
      case Fail => Fail
      case Done(marker, s2) =>
        match DecUInt(s2, 1)
        case Fail => Fail
        case Done(flag, s3) => DecWitnessed(version, marker, flag, s3)
  }

  lemma WitnessesRoundTrip(ws: seq<Witness>, rest: seq<byte>)
    requires EncAll(WITNESS_CODEC, ws).Some?
    ensures DecN(WITNESS_CODEC, |ws|, EncAll(WITNESS_CODEC, ws).value + rest) == Done(ws, rest)
  {
    forall i | 0 <= i < |ws| ensures Law(WITNESS_CODEC, ws[i]) { WitnessLaw(ws[i]); }
    AllRoundTrip(WITNESS_CODEC, ws, rest);
    assert NormAll(WITNESS_CODEC, ws) == ws;
  }

  lemma WitnessedRoundTrip(t: Tx, rest: seq<byte>)
    requires t.SegWit? && |t.witnesses| == |t.vin|
      && EncWitnessed(t.version, t.vin, t.vout, t.witnesses, t.lockTime).Some?
    ensures DecWitnessed(t.version, t.marker, t.flag,
                         EncWitnessed(t.version, t.vin, t.vout, t.witnesses, t.lockTime).value + rest)
         == Done(t.(vout := NormAll(VoutCodec(t.version), t.vout)), rest)
  {
    var d := EncUInt(t.lockTime, 4);
    var c := Then(EncAll(WITNESS_CODEC, t.witnesses), d);
    var b := Then(EncCounted(VoutCodec(t.version), t.vout), c);
    ThenSplit(EncCounted(VIN_CODEC, t.vin), b, rest);
    ThenSplit(EncCounted(VoutCodec(t.version), t.vout), c, rest);
    ThenSplit(EncAll(WITNESS_CODEC, t.witnesses), d, rest);
    VinsRoundTrip(t.vin, b.value + rest);
    VoutsRoundTrip(t.version, t.vout, c.value + rest);
    WitnessesRoundTrip(t.witnesses, d.value + rest);
    UIntRoundTrip(t.lockTime, 4, rest);
  }

  lemma SegWitRoundTrip(t: Tx, rest: seq<byte>)
    requires t.SegWit? && EncSegWit(t).Some? && |t.witnesses| == |t.vin|
    ensures DecSegWit(EncSegWit(t).value + rest) == Done(t.(vout := NormAll(VoutCodec(t.version), t.vout)), rest)
  {
    var d := EncWitnessed(t.version, t.vin, t.vout, t.witnesses, t.lockTime);
    var c := Then(EncUInt(t.flag, 1), d);
    var b := Then(EncUInt(t.marker, 1), c);
    ThenSplit(EncUInt(t.version, 4), b, rest);
    ThenSplit(EncUInt(t.marker, 1), c, rest);
    ThenSplit(EncUInt(t.flag, 1), d, rest);
    UIntRoundTrip(t.version, 4, b.value + rest);
    UIntRoundTrip(t.marker, 1, c.value + rest);
    UIntRoundTrip(t.flag, 1, d.value + rest);
    WitnessedRoundTrip(t, rest);
  }
}
