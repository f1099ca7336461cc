/** Fixed-width timestamped records, their codecs and the order rule of a chunk. */
module Records {
  import opened Wrappers
  import opened Bytes

  type Pad = p: seq<byte> | |p| == 6 witness [0, 0, 0, 0, 0, 0]

  /** Klines are strictly ordered; trades may share a timestamp. */
  datatype Kind = KlineKind | TradeKind {
    function Size(): (n: nat)
      ensures n >= 8
    {
      48
    }

    function SchemaId(): u32 {
      match this
      case KlineKind => 1
      case TradeKind => 10
    }

    predicate AllowsEqualTimestamps() {
      TradeKind?
    }
  }

  datatype Record =
    | Kline(ts: i64, open: i64, high: i64, low: i64, close: i64, volume: i64)
    | Trade(ts: i64, recvTs: i64, tradeId: i64, price: i64, qty: i64, side: i8, flags: byte, pad: Pad)
  {
    function KindOf(): Kind {
      if Kline? then KlineKind else TradeKind
    }
  }

  ghost predicate OfKind(kind: Kind, rs: seq<Record>) {
    forall i :: 0 <= i < |rs| ==> rs[i].KindOf() == kind
  }

  // One record

  function Fields(r: Record): (ws: seq<u64>)
    ensures |ws| == if r.Kline? then 6 else 5
  {
    match r
    case Kline(ts, open, high, low, close, volume) =>
      [I64ToU64(ts), I64ToU64(open), I64ToU64(high), I64ToU64(low), I64ToU64(close), I64ToU64(volume)]
    case Trade(ts, recvTs, tradeId, price, qty, _, _, _) =>
      [I64ToU64(ts), I64ToU64(recvTs), I64ToU64(tradeId), I64ToU64(price), I64ToU64(qty)]
  }

  function Encode(r: Record): (bs: seq<byte>)
    ensures |bs| == r.KindOf().Size()
  {
    EncodeWordsSize(Fields(r));
    EncodeWords(Fields(r)) + if r.Kline? then [] else [I8ToU8(r.side), r.flags] + r.pad
  }

  function FieldAt(bs: seq<byte>, i: nat): i64
    requires 8 * i + 8 <= |bs|
  {
    U64ToI64(ReadWord(bs[8 * i..8 * i + 8]))
  }

  function Decode(kind: Kind, bs: seq<byte>): (r: Result<Record>)
    ensures r.Ok? <==> |bs| == kind.Size()
    ensures r.Ok? ==> r.value.KindOf() == kind
  {
    if |bs| != kind.Size() then
      Err(InvalidData)
    else if kind.KlineKind? then
      Ok(Kline(FieldAt(bs, 0), FieldAt(bs, 1), FieldAt(bs, 2), FieldAt(bs, 3), FieldAt(bs, 4), FieldAt(bs, 5)))
    else
      Ok(Trade(FieldAt(bs, 0), FieldAt(bs, 1), FieldAt(bs, 2), FieldAt(bs, 3), FieldAt(bs, 4),
               U8ToI8(bs[40]), bs[41], bs[42..48]))
  }

  lemma {:induction false} EncodedField(r: Record, i: nat)
    requires i < |Fields(r)|
    ensures FieldAt(Encode(r), i) == U64ToI64(Fields(r)[i])
  {
    EncodeWordsAt(Fields(r), i);
    assert Encode(r)[8 * i..8 * i + 8] == EncodeWords(Fields(r))[8 * i..8 * i + 8];
  }

  /** Every record, over all field values, survives the byte codec. */
  lemma {:induction false} DecodeEncode(r: Record)
    ensures Decode(r.KindOf(), Encode(r)) == Ok(r)
  {
    forall i | 0 <= i < |Fields(r)|
      ensures FieldAt(Encode(r), i) == U64ToI64(Fields(r)[i])
    {
      EncodedField(r, i);
    }
    if r.Trade? {
      EncodeWordsSize(Fields(r));
      assert Encode(r)[42..48] == r.pad;
    }
  }

  /** Where each kline field lies in its 48 bytes. */
  lemma {:induction false} KlineOffsets(r: Record)
    requires r.Kline?
    ensures |Encode(r)| == 48
    ensures FieldAt(Encode(r), 0) == r.ts && FieldAt(Encode(r), 1) == r.open && FieldAt(Encode(r), 2) == r.high
    ensures FieldAt(Encode(r), 3) == r.low && FieldAt(Encode(r), 4) == r.close && FieldAt(Encode(r), 5) == r.volume
  {
    EncodedField(r, 0);
    EncodedField(r, 1);
    EncodedField(r, 2);
    EncodedField(r, 3);
    EncodedField(r, 4);
    EncodedField(r, 5);
  }

  /** Where each trade field lies in its 48 bytes: five words, two bytes, six bytes of padding. */
  lemma {:induction false} TradeOffsets(r: Record)
    requires r.Trade?
    ensures |Encode(r)| == 48
    ensures FieldAt(Encode(r), 0) == r.ts && FieldAt(Encode(r), 1) == r.recvTs && FieldAt(Encode(r), 2) == r.tradeId
    ensures FieldAt(Encode(r), 3) == r.price && FieldAt(Encode(r), 4) == r.qty
    ensures (Encode(r)[40] - r.side) % 256 == 0 && Encode(r)[41] == r.flags && Encode(r)[42..48] == r.pad
  {
    EncodedField(r, 0);
    EncodedField(r, 1);
    EncodedField(r, 2);
    EncodedField(r, 3);
    EncodedField(r, 4);
    EncodeWordsSize(Fields(r));
    assert Encode(r)[42..48] == r.pad;
  }

  /** The readers' binary search relies on the timestamp being the first word of every record. */
  lemma {:induction false} TimestampFirst(r: Record)
    ensures FieldAt(Encode(r), 0) == r.ts
  {
    EncodedField(r, 0);
  }

  // Record regions

  function Blocks(rs: seq<Record>): (blocks: seq<seq<byte>>)
    ensures |blocks| == |rs|
    ensures forall i {:trigger blocks[i]} :: 0 <= i < |rs| ==> blocks[i] == Encode(rs[i])
  {
    seq(|rs|, i requires 0 <= i < |rs| => Encode(rs[i]))
  }

  function EncodeAll(rs: seq<Record>): seq<byte> {
    Concat(Blocks(rs))
  }

  lemma {:induction false} EncodeAllSnoc(rs: seq<Record>, i: nat)
    requires i < |rs|
    ensures EncodeAll(rs[..i + 1]) == EncodeAll(rs[..i]) + Encode(rs[i])
  {
    assert Blocks(rs[..i + 1]) == Blocks(rs[..i]) + [Encode(rs[i])];
    ConcatSnoc(Blocks(rs[..i]), Encode(rs[i]));
  }

  lemma {:induction false} EncodeAllSlice(kind: Kind, rs: seq<Record>, i: nat, j: nat)
    requires OfKind(kind, rs)
    requires i <= j <= |rs|
    ensures 0 <= i * kind.Size() <= j * kind.Size() <= |rs| * kind.Size() == |EncodeAll(rs)|
    ensures EncodeAll(rs)[i * kind.Size()..j * kind.Size()] == EncodeAll(rs[i..j])
  {
    ConcatSlice(Blocks(rs), kind.Size(), i, j);
    assert Blocks(rs)[i..j] == Blocks(rs[i..j]);
  }

  /** Decoding whole blocks, stopping at the first bad one (`collect::<Result<Vec<_>>>`). */
  function DecodeBlocks(kind: Kind, blocks: seq<seq<byte>>): Result<seq<Record>> {
    if blocks == [] then Ok([])
    else
      var first :- Decode(kind, blocks[0]);
      var rest :- DecodeBlocks(kind, blocks[1..]);
      Ok([first] + rest)
  }

  function DecodeAll(kind: Kind, bs: seq<byte>): Result<seq<Record>> {
    DecodeBlocks(kind, Split(bs, kind.Size()))
  }

  lemma {:induction false} DecodeBlocksOf(kind: Kind, rs: seq<Record>)
    requires OfKind(kind, rs)
    ensures DecodeBlocks(kind, Blocks(rs)) == Ok(rs)
  {
    if rs != [] {
      DecodeEncode(rs[0]);
      DecodeBlocksOf(kind, rs[1..]);
      assert Blocks(rs)[1..] == Blocks(rs[1..]);
      assert rs == [rs[0]] + rs[1..];
    } else {
      assert Blocks(rs) == [];
    }
  }

  /** A record region written by the encoder decodes to the same records. */
  lemma {:induction false} DecodeAllEncodeAll(kind: Kind, rs: seq<Record>)
    requires OfKind(kind, rs)
    ensures DecodeAll(kind, EncodeAll(rs)) == Ok(rs)
  {
    SplitConcat(Blocks(rs), kind.Size());
    DecodeBlocksOf(kind, rs);
  }

  // Order

  predicate Precedes(kind: Kind, a: i64, b: i64) {
    if kind.AllowsEqualTimestamps() then a <= b else a < b
  }

  ghost predicate Ordered(kind: Kind, rs: seq<Record>) {
    forall i, j :: 0 <= i < j < |rs| ==> Precedes(kind, rs[i].ts, rs[j].ts)
  }

  ghost predicate NonDecreasing(rs: seq<Record>) {
    forall i, j :: 0 <= i <= j < |rs| ==> rs[i].ts <= rs[j].ts
  }

  ghost predicate Strict(rs: seq<Record>) {
    forall i, j :: 0 <= i < j < |rs| ==> rs[i].ts < rs[j].ts
  }

  /** The scan over neighbours accepts exactly the nonempty, globally ordered inputs. */
  method ValidateOrder(kind: Kind, rs: seq<Record>) returns (r: Result<()>)
    ensures r.Ok? <==> rs != [] && Ordered(kind, rs)
    ensures r.Err? ==> r.error == InvalidInput
  {
    if rs == [] {
      return Err(InvalidInput);
    }
    for i := 1 to |rs|
      invariant Ordered(kind, rs[..i])
    {
      if !Precedes(kind, rs[i - 1].ts, rs[i].ts) {
        return Err(InvalidInput);
      }
      assert forall k :: 0 <= k < i - 1 ==> Precedes(kind, rs[..i][k].ts, rs[..i][i - 1].ts);
      assert rs[..i + 1] == rs[..i] + [rs[i]];
    }
    assert rs[..|rs|] == rs;
    return Ok(());
  }
}
