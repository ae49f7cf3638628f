/**
 What pb_pack must produce, as functions on item lists, and the decoder the
 Protocol Buffers encoding specification prescribes.
 */
module Protobuf {
  import opened Prelude
  import opened Buffers

  // A list entry: `length` is a byte count, or for an embedded message the number of its entries.
  datatype Item = Item(typ: byte, field: byte, data: Data, length: byte)

  datatype Data = Null | Bytes(b: seq<byte>) | Message(items: seq<Item>)

  datatype Packed = Ok(bytes: seq<byte>) | Err(code: int)

  const ERR_WTYPE := -1
  const ERR_ENCBUF := -4

  function WireType(it: Item): int {
    it.typ % 8
  }

  predicate Embedded(it: Item) {
    WireType(it) == 2 && it.typ >= 128
  }

  // Optional fields are left NULL; wire types 3 and 4 are deprecated.
  predicate Skipped(it: Item) {
    it.data.Null? || WireType(it) == 3 || WireType(it) == 4
  }

  // The memory behind `data` that the packer reads.
  ghost predicate Readable(it: Item)
    decreases it
  {
    var w := WireType(it);
    Skipped(it) || w > 5
    || if Embedded(it) then it.data.Message? && |it.data.items| == it.length && AllReadable(it.data.items)
       else it.data.Bytes? && |it.data.b| >= it.length
            && (w == 0 || w == 1 ==> |it.data.b| >= 8) && (w == 5 ==> |it.data.b| >= 4)
  }

  ghost predicate AllReadable(items: seq<Item>)
    decreases items
  {
    items == [] || (Readable(items[0]) && AllReadable(items[1..]))
  }

  // ---------- numbers ----------

  function LittleEndian(b: seq<byte>): nat {
    if b == [] then 0 else b[0] + 256 * LittleEndian(b[1..])
  }

  // The value of a varint item: 1, 2 and 4 say its width, anything else means 8.
  function VarintValue(it: Item): nat
    requires it.data.Bytes? && |it.data.b| >= 8
  {
    if it.length == 1 || it.length == 2 || it.length == 4 then LittleEndian(it.data.b[..it.length])
    else LittleEndian(it.data.b[..8])
  }

  // The test for a value to leave out: never for a type byte that only has wire type
  // 0; otherwise on `length` bytes, or 8 if that is 0.
  predicate LooksZero(it: Item)
    requires it.data.Bytes? && |it.data.b| >= 8 && |it.data.b| >= it.length
  {
    var n := if it.length == 0 then 8 else it.length;
    it.typ == 0 && forall k :: 0 <= k < n ==> it.data.b[k] == 0
  }

  // Groups of seven bits, least significant first; every byte but the last is marked.
  function Groups(v: nat): (bs: seq<byte>)
    ensures bs == [] <==> v == 0
  {
    if v == 0 then []
    else if v < 128 then [v]
    else [v % 128 + 128] + Groups(v / 128)
  }

  function Varint(v: nat): (bs: seq<byte>)
    ensures bs != []
  {
    if v == 0 then [0] else Groups(v)
  }

  function Key(field: nat, wtype: nat): (bs: seq<byte>)
    ensures bs != []
  {
    Varint(8 * field + wtype)
  }

  // ---------- packing ----------

  // What follows the key of an entry that is not an embedded message.
  function Payload(it: Item): seq<byte>
    requires Readable(it) && !Skipped(it) && WireType(it) <= 5 && !Embedded(it)
  {
    var w := WireType(it);
    if w == 0 then Groups(VarintValue(it))
    else if w == 1 then it.data.b[..8]
    else if w == 2 then Varint(it.length) + it.data.b[..it.length]
    else it.data.b[..4]
  }

  function PackItem(it: Item): Packed
    requires Readable(it)
    decreases it
  {
    var w := WireType(it);
    if w > 5 then Err(ERR_WTYPE)
    else if Skipped(it) then Ok([])
    else if Embedded(it) then
      if it.field == 0 then Err(ERR_ENCBUF)
      else match Pack(it.data.items)
        case Err(code) => Err(code)
        case Ok(inner) => Ok(Key(it.field, 2) + (Varint(|inner|) + inner))
    else if w == 0 && LooksZero(it) then Ok([])
    else if it.field == 0 then Err(ERR_ENCBUF)
    else Ok(Key(it.field, w) + Payload(it))
  }

  function Prepend(bs: seq<byte>, p: Packed): Packed {
    match p
    case Ok(rest) => Ok(bs + rest)
    case Err(_) => p
  }

  function Pack(items: seq<Item>): Packed
    requires AllReadable(items)
    decreases items
  {
    if items == [] then Ok([])
    else match PackItem(items[0])
      case Err(code) => Err(code)
      case Ok(bs) => Prepend(bs, Pack(items[1..]))
  }

  // How many bytes packing writes, counting those before an error.
  function ItemExtent(it: Item): nat
    requires Readable(it)
    decreases it
  {
    match PackItem(it)
    case Ok(bs) => |bs|
    case Err(_) =>
      if WireType(it) <= 5 && !Skipped(it) && Embedded(it) && it.field != 0
      then |Key(it.field, 2)| + 1 + Extent(it.data.items) else 0
  }

  function Extent(items: seq<Item>): nat
    requires AllReadable(items)
    decreases items
  {
    if items == [] then 0
    else ItemExtent(items[0]) + if PackItem(items[0]).Ok? then Extent(items[1..]) else 0
  }

  lemma {:induction false} ExtentOfOk(items: seq<Item>)
    requires AllReadable(items) && Pack(items).Ok?
    ensures Extent(items) == |Pack(items).bytes|
    decreases |items|
  {
    if items != [] {
      ExtentOfOk(items[1..]);
    }
  }

  // ---------- decoding ----------

  // One decoded record.
  datatype Wire =
    | Number(field: nat, v: nat)
    | Fixed64(field: nat, bytes: seq<byte>)
    | Length(field: nat, bytes: seq<byte>)
    | Fixed32(field: nat, bytes: seq<byte>)

  // "Base 128 Varints": at most `room` bytes.  The value and how many bytes it took.
  function ReadVarint(bs: seq<byte>, room: nat): (r: Option<(nat, nat)>)
    ensures r.Some? ==> 0 < r.value.1 <= |bs| && r.value.1 <= room
    decreases room
  {
    if bs == [] || room == 0 then None
    else if bs[0] < 128 then Some((bs[0], 1))
    else match ReadVarint(bs[1..], room - 1)
      case None => None
      case Some((v, n)) => Some((bs[0] - 128 + 128 * v, n + 1))
  }

  // One record and how many bytes it took.
  function ReadRecord(bs: seq<byte>): (r: Option<(Wire, nat)>)
    ensures r.Some? ==> 0 < r.value.1 <= |bs|
  {
    match ReadVarint(bs, 10)
    case None => None
    case Some((key, n)) =>
      var field, rest := key / 8, bs[n..];
      if field == 0 then None
      else if key % 8 == 0 then
        match ReadVarint(rest, 10)
        case None => None
        case Some((v, k)) => Some((Number(field, v), n + k))
      else if key % 8 == 1 then
        if |rest| < 8 then None else Some((Fixed64(field, rest[..8]), n + 8))
      else if key % 8 == 2 then
        match ReadVarint(rest, 10)
        case None => None
        case Some((len, k)) =>
          if |rest| < k + len then None else Some((Length(field, rest[k..k + len]), n + k + len))
      else if key % 8 == 5 then
        if |rest| < 4 then None else Some((Fixed32(field, rest[..4]), n + 4))
      else None
  }

  // "Message structure": a message is a run of records.
  function Decode(bs: seq<byte>): Option<seq<Wire>>
    decreases |bs|
  {
    if bs == [] then Some([])
    else match ReadRecord(bs)
      case None => None
      case Some((w, n)) =>
        match Decode(bs[n..])
        case None => None
        case Some(ws) => Some([w] + ws)
  }
}
