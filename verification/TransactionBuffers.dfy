/** Reading and writing transactions and blocks in place on a buffer, field after field, as the composers do. Every
    method is shown to do what the format says; a read that is refused and a write that is refused are exceptions. */
module TransactionBuffers {
  import opened Wrappers
  import opened Bytes
  import opened Composer
  import opened Transactions
  import opened Blocks
  import CompactSize
  import VarInt

  /** `r` and the unread bytes `rest` are what reading gives. */
  ghost predicate Reads<T>(p: Parsed<T>, r: Option<T>, rest: seq<byte>) {
    match p
    case Fail => r.None?
    case Done(v, q) => r == Some(v) && rest == q
  }

  /** Writing appends the code, or throws; what it has written by then is of no use. */
  ghost predicate Writes(e: Option<seq<byte>>, ok: bool, before: seq<byte>, after: seq<byte>) {
    ok == e.Some? && before <= after && (ok ==> after == before + e.value)
  }

  method ReadUInt64(b: SmartBuffer) returns (r: Option<nat>)
    requires b.Valid()
    modifies b`readOffset
    ensures b.Valid() && Reads(DecUInt64(old(b.Rest())), r, b.Rest())
  {
    var lo := b.ReadUInt(4);
    if lo.None? { return None; }
    var hi := b.ReadUInt(4);
    if hi.None? { return None; }
    r := Some(hi.value * 0x1_0000_0000 + lo.value);
  }

  method ReadHexReversed(b: SmartBuffer, n: nat) returns (r: seq<byte>)
    requires b.Valid()
    modifies b`readOffset
    ensures b.Valid() && DecHexReversed(old(b.Rest()), n) == Done(r, b.Rest())
  {
    var h := b.ReadBytes(n);
    r := Reversed(h);
  }

  method ReadSized(b: SmartBuffer) returns (r: Option<seq<byte>>)
    requires b.Valid()
    modifies b`readOffset
    ensures b.Valid() && Reads(DecSized(old(b.Rest())), r, b.Rest())
  {
    var n := CompactSize.Read(b);
    if n.None? { return None; }
    var h := b.ReadBytes(n.value);
    r := Some(h);
  }

  method ReadVin(b: SmartBuffer) returns (r: Option<Vin>)
    requires b.Valid()
    modifies b`readOffset
    ensures b.Valid() && Reads(DecVin(old(b.Rest())), r, b.Rest())
  {
    var txid := ReadHexReversed(b, 32);
    var index := b.ReadUInt(4);
    if index.None? { return None; }
    var script := ReadSized(b);
    if script.None? { return None; }
    var sequence := b.ReadUInt(4);
    if sequence.None? { return None; }
    r := Some(Vin(txid, index.value, script.value, sequence.value));
  }

  method ReadVout(b: SmartBuffer, version: int) returns (r: Option<Vout>)
    requires b.Valid()
    modifies b`readOffset
    ensures b.Valid() && Reads(VoutCodec(version).dec(old(b.Rest())), r, b.Rest())
  {
    var value := ReadUInt64(b);
    if value.None? { return None; }
    var script := ReadSized(b);
    if script.None? { return None; }
    if version < 4 {
      return Some(Vout(value.value, script.value, 0));
    }
    var tokenId := VarInt.Read(b);
    if tokenId.None? { return None; }
    r := Some(Vout(value.value, script.value, tokenId.value));
  }

  /** One more element, after the ones read so far. */
  function Snoc<T>(c: Codec<T>, p: Parsed<seq<T>>): Parsed<seq<T>> {
    match p
    case Fail => Fail
    case Done(xs, q) =>
      match c.dec(q)
      case Fail => Fail
      case Done(x, q') => Done(xs + [x], q')
  }

  /** Reading one more element of an array. */
  lemma {:induction false} DecNSnoc<T>(c: Codec<T>, n: nat, s: seq<byte>)
    ensures DecN(c, n + 1, s) == Snoc(c, DecN(c, n, s))
    decreases n
  {
    if n == 0 {
      if c.dec(s).Done? {
        assert DecN(c, 0, c.dec(s).rest) == Done([], c.dec(s).rest);
        assert [c.dec(s).value] + [] == [] + [c.dec(s).value];
      }
    } else if c.dec(s).Done? {
      var x, t := c.dec(s).value, c.dec(s).rest;
      DecNSnoc(c, n - 1, t);
      var p := DecN(c, n - 1, t);
      if p.Done? && c.dec(p.rest).Done? {
        assert [x] + (p.value + [c.dec(p.rest).value]) == ([x] + p.value) + [c.dec(p.rest).value];
      }
    }
  }

  /** Once an element cannot be read, neither can the array. */
  lemma {:induction false} DecNFails<T>(c: Codec<T>, k: nat, n: nat, s: seq<byte>)
    requires k <= n && DecN(c, k, s).Fail?
    ensures DecN(c, n, s).Fail?
    decreases n
  {
    if k < n {
      DecNFails(c, k, n - 1, s);
      DecNSnoc(c, n - 1, s);
    }
  }

  method ReadVins(b: SmartBuffer) returns (r: Option<seq<Vin>>)
    requires b.Valid()
    modifies b`readOffset
    ensures b.Valid() && Reads(DecCounted(VIN_CODEC, old(b.Rest())), r, b.Rest())
  {
    var length := CompactSize.Read(b);
    if length.None? { return None; }
    ghost var s := b.Rest();
    var items: seq<Vin> := [];
    for i := 0 to length.value
      invariant b.Valid() && DecN(VIN_CODEC, i, s) == Done(items, b.Rest())
    {
      DecNSnoc(VIN_CODEC, i, s);
      var v := ReadVin(b);
      if v.None? {
        DecNFails(VIN_CODEC, i + 1, length.value, s);
        return None;
      }
      items := items + [v.value];
    }
    r := Some(items);
  }

  method ReadVouts(b: SmartBuffer, version: int) returns (r: Option<seq<Vout>>)
    requires b.Valid()
    modifies b`readOffset
    ensures b.Valid() && Reads(DecCounted(VoutCodec(version), old(b.Rest())), r, b.Rest())
  {
    var length := CompactSize.Read(b);
    if length.None? { return None; }
    ghost var s := b.Rest();
    var items: seq<Vout> := [];
    for i := 0 to length.value
      invariant b.Valid() && DecN(VoutCodec(version), i, s) == Done(items, b.Rest())
    {
      DecNSnoc(VoutCodec(version), i, s);
      var v := ReadVout(b, version);
      if v.None? {
        DecNFails(VoutCodec(version), i + 1, length.value, s);
        return None;
      }
      items := items + [v.value];
    }
    r := Some(items);
  }

  method ReadWitness(b: SmartBuffer) returns (r: Option<Witness>)
    requires b.Valid()
    modifies b`readOffset
    ensures b.Valid() && Reads(DecWitness(old(b.Rest())), r, b.Rest())
  {
    var length := CompactSize.Read(b);
    if length.None? { return None; }
    ghost var s := b.Rest();
    var scripts: seq<seq<byte>> := [];
    for i := 0 to length.value
      invariant b.Valid() && DecN(SCRIPT_CODEC, i, s) == Done(scripts, b.Rest())
    {
      DecNSnoc(SCRIPT_CODEC, i, s);
      var v := ReadSized(b);
      if v.None? {
        DecNFails(SCRIPT_CODEC, i + 1, length.value, s);
        return None;
      }
      scripts := scripts + [v.value];
    }
    r := Some(Witness(scripts));
  }

  /** The `array` composer: the length is known, here the number of inputs. */
  method ReadWitnesses(b: SmartBuffer, length: nat) returns (r: Option<seq<Witness>>)
    requires b.Valid()
    modifies b`readOffset
    ensures b.Valid() && Reads(DecN(WITNESS_CODEC, length, old(b.Rest())), r, b.Rest())
  {
    ghost var s := b.Rest();
    var items: seq<Witness> := [];
    for i := 0 to length
      invariant b.Valid() && DecN(WITNESS_CODEC, i, s) == Done(items, b.Rest())
    {
      DecNSnoc(WITNESS_CODEC, i, s);
      var v := ReadWitness(b);
      if v.None? {
        DecNFails(WITNESS_CODEC, i + 1, length, s);
        return None;
      }
      items := items + [v.value];
    }
    r := Some(items);
  }

  method ReadLegacy(b: SmartBuffer) returns (r: Option<Tx>)
    requires b.Valid()
    modifies b`readOffset
    ensures b.Valid() && Reads(DecLegacy(old(b.Rest())), r, b.Rest())
  {
    var version := b.ReadUInt(4);
    if version.None? { return None; }
    var vin := ReadVins(b);
    if vin.None? { return None; }
    var vout := ReadVouts(b, version.value);
    if vout.None? { return None; }
    var lockTime := b.ReadUInt(4);
    if lockTime.None? { return None; }
    r := Some(Legacy(version.value, vin.value, vout.value, lockTime.value));
  }

  method ReadSegWit(b: SmartBuffer) returns (r: Option<Tx>)
    requires b.Valid()
    modifies b`readOffset
    ensures b.Valid() && Reads(DecSegWit(old(b.Rest())), r, b.Rest())
  {
    var version := b.ReadUInt(4);
    if version.None? { return None; }
    var marker := b.ReadUInt(1);
    if marker.None? { return None; }
    var flag := b.ReadUInt(1);
    if flag.None? { return None; }
    var vin := ReadVins(b);
    if vin.None? { return None; }
    var vout := ReadVouts(b, version.value);
    if vout.None? { return None; }
    var witnesses := ReadWitnesses(b, |vin.value|);
    if witnesses.None? { return None; }
    var lockTime := b.ReadUInt(4);
    if lockTime.None? { return None; }
    r := Some(SegWit(version.value, marker.value, flag.value, vin.value, vout.value, witnesses.value, lockTime.value));
  }

  /** The offset is kept, the marker is read, and the offset is set back before the transaction is read. */
  method ReadTx(b: SmartBuffer) returns (r: Option<Tx>)
    requires b.Valid()
    modifies b`readOffset
    ensures b.Valid() && Reads(DecTx(old(b.Rest())), r, b.Rest())
  {
    ghost var s := b.Rest();
    var readOffset := b.readOffset;
    var version := b.ReadUInt(4);
    if version.None? { return None; }
    var marker := b.ReadUInt(1);
    if marker.None? { return None; }
    assert s[4..][..1] == [s[4]];
    FromLEOne(s[4]);
    b.readOffset := readOffset;
    if marker.value > 0 {
      r := ReadLegacy(b);
    } else {
      r := ReadSegWit(b);
    }
  }

  method ReadHeader(b: SmartBuffer) returns (r: Option<Header>)
    requires b.Valid()
    modifies b`readOffset
    ensures b.Valid() && Reads(DecHeader(old(b.Rest())), r, b.Rest())
  {
    var version := b.ReadUInt(4);
    if version.None? { return None; }
    var prev := ReadHexReversed(b, 32);
    var root := ReadHexReversed(b, 32);
    var time := b.ReadUInt(4);
    if time.None? { return None; }
    r := ReadHeaderTail(b, version.value, prev, root, time.value);
  }

  method ReadHeaderTail(b: SmartBuffer, version: int, prev: seq<byte>, root: seq<byte>, time: int)
    returns (r: Option<Header>)
    requires b.Valid()
    modifies b`readOffset
    ensures b.Valid() && Reads(DecHeaderTail(version, prev, root, time, old(b.Rest())), r, b.Rest())
  {
    var bits := b.ReadUInt(4);
    if bits.None? { return None; }
    var modifier := ReadHexReversed(b, 32);
    var height := ReadUInt64(b);
    if height.None? { return None; }
    var minted := ReadUInt64(b);
    if minted.None? { return None; }
    var signature := ReadSized(b);
    if signature.None? { return None; }
    r := Some(Header(version, prev, root, time, bits.value, modifier, height.value, minted.value, signature.value));
  }

  method ReadTxs(b: SmartBuffer) returns (r: Option<seq<Tx>>)
    requires b.Valid()
    modifies b`readOffset
    ensures b.Valid() && Reads(DecCounted(TX_CODEC, old(b.Rest())), r, b.Rest())
  {
    var length := CompactSize.Read(b);
    if length.None? { return None; }
    ghost var s := b.Rest();
    var items: seq<Tx> := [];
    for i := 0 to length.value
      invariant b.Valid() && DecN(TX_CODEC, i, s) == Done(items, b.Rest())
    {
      DecNSnoc(TX_CODEC, i, s);
      var t := ReadTx(b);
      if t.None? {
        DecNFails(TX_CODEC, i + 1, length.value, s);
        return None;
      }
      items := items + [t.value];
    }
    r := Some(items);
  }

  method ReadBlock(b: SmartBuffer) returns (r: Option<Block>)
    requires b.Valid()
    modifies b`readOffset
    ensures b.Valid() && Reads(DecBlock(old(b.Rest())), r, b.Rest())
  {
    var header := ReadHeader(b);
    if header.None? { return None; }
    var transactions := ReadTxs(b);
    if transactions.None? { return None; }
    r := Some(Block(header.value, transactions.value));
  }

  // Writing. A refused write leaves what was written before it.

  /** Two writes after one another. */
  lemma WritesThen(e: Option<seq<byte>>, f: Option<seq<byte>>, ok: bool, before: seq<byte>, mid: seq<byte>,
                   after: seq<byte>)
    requires Writes(e, true, before, mid) && Writes(f, ok, mid, after)
    ensures Writes(Then(e, f), ok, before, after)
  {
  }

  /** Four writes after one another: the code of the first three and a tail. */
  lemma WritesFour(e: Option<seq<byte>>, f: Option<seq<byte>>, g: Option<seq<byte>>, h: Option<seq<byte>>, ok: bool,
                   b0: seq<byte>, b1: seq<byte>, b2: seq<byte>, b3: seq<byte>, b4: seq<byte>)
    requires Writes(e, true, b0, b1) && Writes(f, true, b1, b2) && Writes(g, true, b2, b3) && Writes(h, ok, b3, b4)
    ensures Writes(Then(e, Then(f, Then(g, h))), ok, b0, b4)
  {
    WritesThen(g, h, ok, b2, b3, b4);
    WritesThen(f, Then(g, h), ok, b1, b2, b4);
    WritesThen(e, Then(f, Then(g, h)), ok, b0, b1, b4);
  }

  lemma UInt64IsTwoWords(n: nat)
    ensures EncUInt64(n) == Then(EncUInt(n % 0x1_0000_0000, 4), EncUInt(n / 0x1_0000_0000, 4))
  {
    Pow256Values();
  }

  method WriteUInt64(n: int, b: SmartBuffer) returns (ok: bool)
    requires b.Valid()
    modifies b`bytes
    ensures b.Valid() && Writes(EncUInt64(n), ok, old(b.bytes), b.bytes)
  {
    if n < 0 || n >= 0x1_0000_0000_0000_0000 { return false; }
    ghost var b0 := b.bytes;
    UInt64IsTwoWords(n);
    ok := b.WriteUInt(n % 0x1_0000_0000, 4);
    if !ok { return; }
    ghost var b1 := b.bytes;
    ok := b.WriteUInt(n / 0x1_0000_0000, 4);
    WritesThen(EncUInt(n % 0x1_0000_0000, 4), EncUInt(n / 0x1_0000_0000, 4), ok, b0, b1, b.bytes);
  }

  method WriteHexReversed(h: seq<byte>, n: nat, b: SmartBuffer) returns (ok: bool)
    requires b.Valid()
    modifies b`bytes
    ensures b.Valid() && Writes(EncHexReversed(h, n), ok, old(b.bytes), b.bytes)
  {
    ok := |h| == n;
    if ok {
      b.Write(Reversed(h));
    }
  }

  method WriteSized(h: seq<byte>, b: SmartBuffer) returns (ok: bool)
    requires b.Valid()
    modifies b`bytes
    ensures b.Valid() && Writes(EncSized(h), ok, old(b.bytes), b.bytes)
  {
    ghost var before := b.bytes;
    ok := CompactSize.Write(|h|, b);
    if ok {
      b.Write(h);
      assert b.bytes == before + (CompactSize.Enc(|h|).value + h);
    }
  }

  method WriteVin(v: Vin, b: SmartBuffer) returns (ok: bool)
    requires b.Valid()
    modifies b`bytes
    ensures b.Valid() && Writes(EncVin(v), ok, old(b.bytes), b.bytes)
  {
    ghost var b0 := b.bytes;
    ok := WriteHexReversed(v.txid, 32, b);
    if !ok { return; }
    ghost var b1 := b.bytes;
    ok := b.WriteUInt(v.index, 4);
    if !ok { return; }
    ghost var b2 := b.bytes;
    ok := WriteSized(v.script, b);
    if !ok { return; }
    ghost var b3 := b.bytes;
    ok := b.WriteUInt(v.sequence, 4);
    WritesFour(EncHexReversed(v.txid, 32), EncUInt(v.index, 4), EncSized(v.script), EncUInt(v.sequence, 4),
               ok, b0, b1, b2, b3, b.bytes);
  }

  method WriteVout(v: Vout, version: int, b: SmartBuffer) returns (ok: bool)
    requires b.Valid()
    modifies b`bytes
    ensures b.Valid() && Writes(VoutCodec(version).enc(v), ok, old(b.bytes), b.bytes)
  {
    ghost var before := b.bytes;
    ok := WriteUInt64(v.value, b);
    if !ok { return; }
    ghost var mid := b.bytes;
    ok := WriteSized(v.script, b);
    WritesThen(EncUInt64(v.value), EncSized(v.script), ok, before, mid, b.bytes);
    if !ok || version < 4 { return; }
    mid := b.bytes;
    ok := VarInt.Write(v.tokenId, b);
    WritesThen(EncVoutV2(v), VarInt.Enc(v.tokenId), ok, before, mid, b.bytes);
  }

  lemma {:induction false} EncAllSnoc<T>(c: Codec<T>, xs: seq<T>, x: T)
    ensures EncAll(c, xs + [x]) == Then(EncAll(c, xs), c.enc(x))
    decreases |xs|
  {
    if xs == [] {
      assert [] + [x] == [x] && [x][1..] == [];
      assert EncAll(c, [x]) == Then(c.enc(x), Some([]));
      assert c.enc(x).Some? ==> [] + c.enc(x).value == c.enc(x).value + [] == c.enc(x).value;
    } else {
      assert (xs + [x])[1..] == xs[1..] + [x];
      EncAllSnoc(c, xs[1..], x);
      if EncAll(c, xs[1..]).Some? && c.enc(x).Some? && c.enc(xs[0]).Some? {
        var h, m, t := c.enc(xs[0]).value, EncAll(c, xs[1..]).value, c.enc(x).value;
        assert h + (m + t) == (h + m) + t;
      }
    }
  }

  /** Once an element cannot be written, neither can the array. */
  lemma {:induction false} EncAllFails<T>(c: Codec<T>, xs: seq<T>, i: nat)
    requires i < |xs| && c.enc(xs[i]).None?
    ensures EncAll(c, xs).None?
    decreases |xs|
  {
    if i > 0 {
      EncAllFails(c, xs[1..], i - 1);
    }
  }

  lemma OneMore<T>(c: Codec<T>, xs: seq<T>, i: nat, before: seq<byte>, mid: seq<byte>, after: seq<byte>)
    requires i < |xs| && Writes(EncAll(c, xs[..i]), true, before, mid) && Writes(c.enc(xs[i]), true, mid, after)
    ensures Writes(EncAll(c, xs[..i + 1]), true, before, after)
  {
    assert xs[..i + 1] == xs[..i] + [xs[i]];
    EncAllSnoc(c, xs[..i], xs[i]);
    WritesThen(EncAll(c, xs[..i]), c.enc(xs[i]), true, before, mid, after);
  }

  method WriteVins(vs: seq<Vin>, b: SmartBuffer) returns (ok: bool)
    requires b.Valid()
    modifies b`bytes
    ensures b.Valid() && Writes(EncCounted(VIN_CODEC, vs), ok, old(b.bytes), b.bytes)
  {
    ok := CompactSize.Write(|vs|, b);
    if !ok { return; }
    ghost var before := b.bytes;
    for i := 0 to |vs|
      invariant b.Valid() && ok && Writes(EncAll(VIN_CODEC, vs[..i]), true, before, b.bytes)
    {
      ghost var mid := b.bytes;
      ok := WriteVin(vs[i], b);
      if !ok {
        EncAllFails(VIN_CODEC, vs, i);
        return;
      }
      OneMore(VIN_CODEC, vs, i, before, mid, b.bytes);
    }
    assert vs[..|vs|] == vs;
    WritesThen(CompactSize.Enc(|vs|), EncAll(VIN_CODEC, vs), true, old(b.bytes), before, b.bytes);
  }

  method WriteVouts(vs: seq<Vout>, version: int, b: SmartBuffer) returns (ok: bool)
    requires b.Valid()
    modifies b`bytes
    ensures b.Valid() && Writes(EncCounted(VoutCodec(version), vs), ok, old(b.bytes), b.bytes)
  {
    ok := CompactSize.Write(|vs|, b);
    if !ok { return; }
    ghost var before, c := b.bytes, VoutCodec(version);
    for i := 0 to |vs|
      invariant b.Valid() && ok && Writes(EncAll(c, vs[..i]), true, before, b.bytes)
    {
      ghost var mid := b.bytes;
      ok := WriteVout(vs[i], version, b);
      if !ok {
        EncAllFails(c, vs, i);
        return;
      }
      OneMore(c, vs, i, before, mid, b.bytes);
    }
    assert vs[..|vs|] == vs;
    WritesThen(CompactSize.Enc(|vs|), EncAll(c, vs), true, old(b.bytes), before, b.bytes);
  }

  method WriteWitness(w: Witness, b: SmartBuffer) returns (ok: bool)
    requires b.Valid()
    modifies b`bytes
    ensures b.Valid() && Writes(EncWitness(w), ok, old(b.bytes), b.bytes)
  {
    var vs := w.scripts;
    ok := CompactSize.Write(|vs|, b);
    if !ok { return; }
    ghost var before := b.bytes;
    for i := 0 to |vs|
      invariant b.Valid() && ok && Writes(EncAll(SCRIPT_CODEC, vs[..i]), true, before, b.bytes)
    {
      ghost var mid := b.bytes;
      ok := WriteSized(vs[i], b);
      if !ok {
        EncAllFails(SCRIPT_CODEC, vs, i);
        return;
      }
      OneMore(SCRIPT_CODEC, vs, i, before, mid, b.bytes);
    }
    assert vs[..|vs|] == vs;
    WritesThen(CompactSize.Enc(|vs|), EncAll(SCRIPT_CODEC, vs), true, old(b.bytes), before, b.bytes);
  }

  method WriteWitnesses(vs: seq<Witness>, b: SmartBuffer) returns (ok: bool)
    requires b.Valid()
    modifies b`bytes
    ensures b.Valid() && Writes(EncAll(WITNESS_CODEC, vs), ok, old(b.bytes), b.bytes)
  {
    ok := true;
    ghost var before := b.bytes;
    for i := 0 to |vs|
      invariant b.Valid() && ok && Writes(EncAll(WITNESS_CODEC, vs[..i]), true, before, b.bytes)
    {
      ghost var mid := b.bytes;
      ok := WriteWitness(vs[i], b);
      if !ok {
        EncAllFails(WITNESS_CODEC, vs, i);
        return;
      }
      OneMore(WITNESS_CODEC, vs, i, before, mid, b.bytes);
    }
    assert vs[..|vs|] == vs;
  }

  /** The form is chosen by the marker alone. */
  method WriteTx(t: Tx, b: SmartBuffer) returns (ok: bool)
    requires b.Valid()
    modifies b`bytes
    ensures b.Valid() && Writes(EncTx(t), ok, old(b.bytes), b.bytes)
  {
    if t.SegWit? && t.marker == 0 {
      ok := WriteSegWit(t, b);
    } else {
      ok := WriteLegacy(t, b);
    }
  }

  method WriteLegacy(t: Tx, b: SmartBuffer) returns (ok: bool)
    requires b.Valid()
    modifies b`bytes
    ensures b.Valid() && Writes(EncLegacy(t.version, t.vin, t.vout, t.lockTime), ok, old(b.bytes), b.bytes)
  {
    ghost var b0 := b.bytes;
    ok := b.WriteUInt(t.version, 4);
    if !ok { return; }
    ghost var b1 := b.bytes;
    ok := WriteVins(t.vin, b);
    if !ok { return; }
    ghost var b2 := b.bytes;
    ok := WriteVouts(t.vout, t.version, b);
    if !ok { return; }
    ghost var b3 := b.bytes;
    ok := b.WriteUInt(t.lockTime, 4);
    WritesFour(EncUInt(t.version, 4), EncCounted(VIN_CODEC, t.vin), EncCounted(VoutCodec(t.version), t.vout),
               EncUInt(t.lockTime, 4), ok, b0, b1, b2, b3, b.bytes);
  }

  method WriteSegWit(t: Tx, b: SmartBuffer) returns (ok: bool)
    requires b.Valid() && t.SegWit?
    modifies b`bytes
    ensures b.Valid() && Writes(EncSegWit(t), ok, old(b.bytes), b.bytes)
  {
    ghost var b0 := b.bytes;
    ok := b.WriteUInt(t.version, 4);
    if !ok { return; }
    ghost var b1 := b.bytes;
    ok := b.WriteUInt(t.marker, 1);
    if !ok { return; }
    ghost var b2 := b.bytes;
    ok := b.WriteUInt(t.flag, 1);
    if !ok { return; }
    ghost var b3 := b.bytes;
    ok := WriteWitnessed(t, b);
    WritesFour(EncUInt(t.version, 4), EncUInt(t.marker, 1), EncUInt(t.flag, 1),
               EncWitnessed(t.version, t.vin, t.vout, t.witnesses, t.lockTime), ok, b0, b1, b2, b3, b.bytes);
  }

  method WriteWitnessed(t: Tx, b: SmartBuffer) returns (ok: bool)
    requires b.Valid() && t.SegWit?
    modifies b`bytes
    ensures b.Valid() && Writes(EncWitnessed(t.version, t.vin, t.vout, t.witnesses, t.lockTime), ok,
                                old(b.bytes), b.bytes)
  {
    ghost var b0 := b.bytes;
    ok := WriteVins(t.vin, b);
    if !ok { return; }
    ghost var b1 := b.bytes;
    ok := WriteVouts(t.vout, t.version, b);
    if !ok { return; }
    ghost var b2 := b.bytes;
    ok := WriteWitnesses(t.witnesses, b);
    if !ok { return; }
    ghost var b3 := b.bytes;
    ok := b.WriteUInt(t.lockTime, 4);
    WritesFour(EncCounted(VIN_CODEC, t.vin), EncCounted(VoutCodec(t.version), t.vout),
               EncAll(WITNESS_CODEC, t.witnesses), EncUInt(t.lockTime, 4), ok, b0, b1, b2, b3, b.bytes);
  }

  method WriteTxs(vs: seq<Tx>, b: SmartBuffer) returns (ok: bool)
    requires b.Valid()
    modifies b`bytes
    ensures b.Valid() && Writes(EncCounted(TX_CODEC, vs), ok, old(b.bytes), b.bytes)
  {
    ok := CompactSize.Write(|vs|, b);
    if !ok { return; }
    ghost var before := b.bytes;
    for i := 0 to |vs|
      invariant b.Valid() && ok && Writes(EncAll(TX_CODEC, vs[..i]), true, before, b.bytes)
    {
      ghost var mid := b.bytes;
      ok := WriteTx(vs[i], b);
      if !ok {
        EncAllFails(TX_CODEC, vs, i);
        return;
      }
      OneMore(TX_CODEC, vs, i, before, mid, b.bytes);
    }
    assert vs[..|vs|] == vs;
    WritesThen(CompactSize.Enc(|vs|), EncAll(TX_CODEC, vs), true, old(b.bytes), before, b.bytes);
  }

  method WriteHeaderTail(h: Header, b: SmartBuffer) returns (ok: bool)
    requires b.Valid()
    modifies b`bytes
    ensures b.Valid() && Writes(EncHeaderTail(h), ok, old(b.bytes), b.bytes)
  {
    ghost var b0 := b.bytes;
    ok := b.WriteUInt(h.bits, 4);
    if !ok { return; }
    ghost var b1 := b.bytes;
    ok := WriteHexReversed(h.stakeModifier, 32, b);
    if !ok { return; }
    ghost var b2 := b.bytes;
    ok := WriteUInt64(h.height, b);
    if !ok { return; }
    ghost var b3 := b.bytes;
    ok := WriteUInt64(h.mintedBlocks, b);
    if !ok { return; }
    ghost var b4 := b.bytes;
    ok := WriteSized(h.signature, b);
    ghost var d, e := EncUInt64(h.mintedBlocks), EncSized(h.signature);
    WritesThen(d, e, ok, b3, b4, b.bytes);
    WritesFour(EncUInt(h.bits, 4), EncHexReversed(h.stakeModifier, 32), EncUInt64(h.height), Then(d, e),
               ok, b0, b1, b2, b3, b.bytes);
  }

  method WriteHeader(h: Header, b: SmartBuffer) returns (ok: bool)
    requires b.Valid()
    modifies b`bytes
    ensures b.Valid() && Writes(EncHeader(h), ok, old(b.bytes), b.bytes)
  {
    ghost var b0 := b.bytes;
    ok := b.WriteUInt(h.version, 4);
    if !ok { return; }
    ghost var b1 := b.bytes;
    ok := WriteHexReversed(h.hashPrevBlock, 32, b);
    if !ok { return; }
    ghost var b2 := b.bytes;
    ok := WriteHexReversed(h.hashMerkleRoot, 32, b);
    if !ok { return; }
    ghost var b3 := b.bytes;
    ok := b.WriteUInt(h.time, 4);
    if !ok { return; }
    ghost var b4 := b.bytes;
    ok := WriteHeaderTail(h, b);
    ghost var d, e := EncUInt(h.time, 4), EncHeaderTail(h);
    WritesThen(d, e, ok, b3, b4, b.bytes);
    WritesFour(EncUInt(h.version, 4), EncHexReversed(h.hashPrevBlock, 32), EncHexReversed(h.hashMerkleRoot, 32),
               Then(d, e),
               ok, b0, b1, b2, b3, b.bytes);
  }

  method WriteBlock(block: Block, b: SmartBuffer) returns (ok: bool)
    requires b.Valid()
    modifies b`bytes
    ensures b.Valid() && Writes(EncBlock(block), ok, old(b.bytes), b.bytes)
  {
    ghost var b0 := b.bytes;
    ok := WriteHeader(block.header, b);
    if !ok { return; }
    ghost var b1 := b.bytes;
    ok := WriteTxs(block.transactions, b);
    WritesThen(EncHeader(block.header), EncCounted(TX_CODEC, block.transactions), ok, b0, b1, b.bytes);
  }

  /** A block written behind all that was read comes back from the same buffer: up to token ids its version does not
      store if its transactions can be told apart, and unchanged exactly when they lose none of them either. */
  method WriteAndReadBlock(block: Block, b: SmartBuffer) returns (ok: bool, r: Option<Block>)
    requires b.Valid() && b.Rest() == []
    modifies b
    ensures b.Valid() && (ok <==> EncBlock(block).Some?)
    ensures ok && (forall i :: 0 <= i < |block.transactions| ==> Distinct(block.transactions[i])) ==>
      r == Some(block.(transactions := NormAll(TX_CODEC, block.transactions))) && b.Rest() == []
    ensures ok ==>
      (r == Some(block) && b.Rest() == [] <==>
        forall i :: 0 <= i < |block.transactions| ==>
          Distinct(block.transactions[i]) && NoLostTokens(block.transactions[i]))
  {
    ghost var was := b.bytes;
    ok := WriteBlock(block, b);
    if !ok {
      return false, None;
    }
    ghost var code := EncBlock(block).value;
    assert b.Rest() == code + [] by {
      assert b.bytes == was + code && b.readOffset == |was|;
    }
    BlockRoundTripsIff(block, []);
    if forall i :: 0 <= i < |block.transactions| ==> Distinct(block.transactions[i]) {
      BlockRoundTrip(block, []);
    }
    r := ReadBlock(b);
  }
}
