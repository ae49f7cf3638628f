/** Decoding inverts packing, at every depth of nesting; and varints are minimal. */
module ProtobufTheorems {
  import opened Prelude
  import opened Buffers
  import opened Protobuf

  // ---------- varints ----------

  function Pow(base: nat, k: nat): nat {
    if k == 0 then 1 else base * Pow(base, k - 1)
  }

  lemma {:induction false} GroupsFit(v: nat, k: nat)
    requires v < Pow(128, k)
    ensures |Groups(v)| <= k
    decreases k
  {
    if v >= 128 {
      GroupsFit(v / 128, k - 1);
    }
  }

  lemma {:induction false} LittleEndianFits(b: seq<byte>)
    ensures LittleEndian(b) < Pow(256, |b|)
    decreases |b|
  {
    if b != [] {
      LittleEndianFits(b[1..]);
    }
  }

  // Every 64-bit value takes at most ten bytes.
  lemma VarintFits(v: nat)
    requires v < Pow(256, 8)
    ensures |Varint(v)| <= 10
  {
    assert Pow(256, 8) == 0x1_0000_0000_0000_0000;
    assert Pow(128, 10) == 0x40_0000_0000_0000_0000;
    GroupsFit(v, 10);
  }

  lemma {:induction false} ReadGroups(v: nat, tail: seq<byte>, room: nat)
    requires v > 0 && |Groups(v)| <= room
    ensures ReadVarint(Groups(v) + tail, room) == Some((v, |Groups(v)|))
    decreases v
  {
    var bs := Groups(v) + tail;
    if v >= 128 {
      ReadGroups(v / 128, tail, room - 1);
      assert bs[1..] == Groups(v / 128) + tail;
      assert v % 128 + 128 * (v / 128) == v;
    }
  }

  // A varint is read back, whatever follows it.
  lemma ReadsBack(v: nat, tail: seq<byte>)
    requires v < Pow(256, 8)
    ensures ReadVarint(Varint(v) + tail, 10) == Some((v, |Varint(v)|))
  {
    VarintFits(v);
    if v > 0 {
      ReadGroups(v, tail, 10);
    }
  }

  // No byte string is a shorter varint for the same value.
  lemma {:induction false} VarintMinimal(bs: seq<byte>, room: nat)
    requires ReadVarint(bs, room).Some?
    ensures var (v, n) := ReadVarint(bs, room).value; |Varint(v)| <= n
    decreases room
  {
    if bs[0] >= 128 {
      var (v, n) := ReadVarint(bs[1..], room - 1).value;
      VarintMinimal(bs[1..], room - 1);
      var whole := bs[0] - 128 + 128 * v;
      assert whole / 128 == v && whole % 128 == bs[0] - 128;
    }
  }

  // Numbers written out, least significant byte first.
  function Two(b: seq<byte>): nat
    requires |b| >= 2
  {
    b[0] as int + 0x100 * b[1] as int
  }

  function Four(b: seq<byte>): nat
    requires |b| >= 4
  {
    Two(b) + 0x1_0000 * b[2] as int + 0x100_0000 * b[3] as int
  }

  function Eight(b: seq<byte>): nat
    requires |b| >= 8
  {
    Four(b) + 0x1_0000_0000 * b[4] as int + 0x100_0000_0000 * b[5] as int
    + 0x1_0000_0000_0000 * b[6] as int + 0x100_0000_0000_0000 * b[7] as int
  }

  lemma LittleEndianFrom(b: seq<byte>, n: nat)
    requires n <= |b|
    ensures forall i :: 0 <= i < n ==> LittleEndian(b[i..n]) == b[i] as int + 256 * LittleEndian(b[i + 1..n])
    ensures LittleEndian(b[n..n]) == 0
  {
    forall i | 0 <= i < n
      ensures LittleEndian(b[i..n]) == b[i] as int + 256 * LittleEndian(b[i + 1..n])
    {
      assert b[i..n][1..] == b[i + 1..n];
    }
  }

  // The value of a varint entry, for each width.
  lemma ValueIs(it: Item)
    requires it.data.Bytes? && |it.data.b| >= 8
    ensures VarintValue(it) == if it.length == 1 then it.data.b[0] as int
                               else if it.length == 2 then Two(it.data.b)
                               else if it.length == 4 then Four(it.data.b)
                               else Eight(it.data.b)
  {
    var b := it.data.b;
    var n := if it.length == 1 || it.length == 2 || it.length == 4 then it.length as nat else 8;
    LittleEndianFrom(b, n);
    assert b[0..n] == b[..n];
    hide LittleEndian;
  }

  // ---------- which records to expect ----------

  // The entry puts something into the message.
  predicate Emitted(it: Item)
    requires Readable(it)
  {
    WireType(it) <= 5 && !Skipped(it) && (Embedded(it) || WireType(it) != 0 || !LooksZero(it))
  }

  function RecordOf(it: Item): Wire
    requires Readable(it) && PackItem(it).Ok? && Emitted(it)
  {
    var w := WireType(it);
    if Embedded(it) then Length(it.field, Pack(it.data.items).bytes)
    else if w == 0 then Number(it.field, VarintValue(it))
    else if w == 1 then Fixed64(it.field, it.data.b[..8])
    else if w == 2 then Length(it.field, it.data.b[..it.length])
    else Fixed32(it.field, it.data.b[..4])
  }

  function Records(items: seq<Item>): seq<Wire>
    requires AllReadable(items) && Pack(items).Ok?
    decreases |items|
  {
    if items == [] then []
    else (if Emitted(items[0]) then [RecordOf(items[0])] else []) + Records(items[1..])
  }

  // A varint entry that is emitted although its value is zero: its key stands alone,
  // with no value after it.
  predicate HalfVarint(it: Item)
    requires Readable(it)
  {
    Emitted(it) && !Embedded(it) && WireType(it) == 0 && VarintValue(it) == 0
  }

  predicate NoHalfVarint(items: seq<Item>)
    requires AllReadable(items)
    decreases |items|
  {
    items == [] || (!HalfVarint(items[0]) && NoHalfVarint(items[1..]))
  }

  // ---------- reading one record back ----------

  lemma KeyReadsBack(field: byte, w: nat, tail: seq<byte>)
    requires w < 8
    ensures ReadVarint(Key(field, w) + tail, 10) == Some((8 * field + w, |Key(field, w)|))
  {
    assert 2048 < Pow(256, 8) by { assert Pow(256, 8) == 0x1_0000_0000_0000_0000; }
    ReadsBack(8 * field + w, tail);
  }

  lemma ValueFits(it: Item)
    requires it.data.Bytes? && |it.data.b| >= 8
    ensures VarintValue(it) < Pow(256, 8)
  {
    assert Pow(256, 8) == 0x1_0000_0000_0000_0000 && Pow(256, 4) == 0x1_0000_0000;
    assert Pow(256, 2) == 0x1_0000 && Pow(256, 1) == 256;
    LittleEndianFits(it.data.b[..8]);
    LittleEndianFits(it.data.b[..1]);
    LittleEndianFits(it.data.b[..2]);
    LittleEndianFits(it.data.b[..4]);
  }

  // A length-delimited record.
  lemma LengthReadsBack(field: byte, body: seq<byte>, tail: seq<byte>)
    requires field != 0 && |body| < Pow(256, 8)
    ensures var bs := Key(field, 2) + (Varint(|body|) + body);
            ReadRecord(bs + tail) == Some((Length(field, body), |bs|))
  {
    hide Key, Varint, ReadVarint, Pow;
    var key, len := Key(field, 2), Varint(|body|);
    var rest := len + (body + tail);
    assert key + (len + body) + tail == key + rest;
    KeyReadsBack(field, 2, rest);
    assert (key + rest)[|key|..] == rest;
    ReadsBack(|body|, body + tail);
    assert rest[|len|..|len| + |body|] == body;
  }

  lemma NumberReadsBack(field: byte, v: nat, tail: seq<byte>)
    requires field != 0 && v < Pow(256, 8)
    ensures ReadRecord(Key(field, 0) + Varint(v) + tail) == Some((Number(field, v), |Key(field, 0) + Varint(v)|))
  {
    hide Key, Varint, ReadVarint, Pow;
    var key, num := Key(field, 0), Varint(v);
    assert key + num + tail == key + (num + tail);
    KeyReadsBack(field, 0, num + tail);
    assert (key + (num + tail))[|key|..] == num + tail;
    ReadsBack(v, tail);
  }

  lemma FixedReadsBack(field: byte, w: nat, body: seq<byte>, tail: seq<byte>)
    requires field != 0 && ((w == 1 && |body| == 8) || (w == 5 && |body| == 4))
    ensures ReadRecord(Key(field, w) + body + tail)
         == Some((if w == 1 then Fixed64(field, body) else Fixed32(field, body), |Key(field, w) + body|))
  {
    hide Key, Varint, ReadVarint;
    var key := Key(field, w);
    assert key + body + tail == key + (body + tail);
    KeyReadsBack(field, w, body + tail);
    assert (key + (body + tail))[|key|..] == body + tail;
    assert (body + tail)[..|body|] == body;
  }

  predicate SmallItem(it: Item)
    requires Readable(it)
  {
    WireType(it) > 5 || Skipped(it) || !Embedded(it)
    || (Pack(it.data.items).Ok? ==> |Pack(it.data.items).bytes| < Pow(256, 8))
  }

  // Nested messages are shorter than 2^64 bytes, as every C object is.
  predicate Small(items: seq<Item>)
    requires AllReadable(items)
    decreases |items|
  {
    items == [] || (SmallItem(items[0]) && Small(items[1..]))
  }

  lemma ItemReadsBack(it: Item, tail: seq<byte>)
    requires Readable(it) && PackItem(it).Ok? && Emitted(it) && SmallItem(it) && !HalfVarint(it)
    ensures ReadRecord(PackItem(it).bytes + tail) == Some((RecordOf(it), |PackItem(it).bytes|))
  {
    var w := WireType(it);
    if Embedded(it) {
      LengthReadsBack(it.field, Pack(it.data.items).bytes, tail);
    } else if w == 0 {
      ValueFits(it);
      assert Groups(VarintValue(it)) == Varint(VarintValue(it));
      NumberReadsBack(it.field, VarintValue(it), tail);
    } else if w == 2 {
      assert Pow(256, 8) == 0x1_0000_0000_0000_0000;
      LengthReadsBack(it.field, it.data.b[..it.length], tail);
    } else {
      FixedReadsBack(it.field, w, Payload(it), tail);
    }
  }

  lemma NothingEmitted(it: Item)
    requires Readable(it) && PackItem(it).Ok?
    ensures PackItem(it).bytes == [] <==> !Emitted(it)
  {
  }

  lemma {:induction false} DecodesToRecords(items: seq<Item>)
    requires AllReadable(items) && Pack(items).Ok? && Small(items) && NoHalfVarint(items)
    ensures Decode(Pack(items).bytes) == Some(Records(items))
    decreases |items|
  {
    hide PackItem, ReadRecord, RecordOf, HalfVarint, Emitted, SmallItem, Readable;
    if items != [] {
      var it := items[0];
      var head, rest := PackItem(it).bytes, Pack(items[1..]).bytes;
      DecodesToRecords(items[1..]);
      NothingEmitted(it);
      assert Pack(items).bytes == head + rest;
      if Emitted(it) {
        ItemReadsBack(it, rest);
        assert (head + rest)[|head|..] == rest;
      } else {
        assert head + rest == rest && [] + Records(items[1..]) == Records(items[1..]);
      }
    }
  }

  // ---------- exactly when ----------

  // The length of the shortest message with these records.
  function ShortestRecord(w: Wire): nat {
    match w
    case Number(f, v) => |Key(f, 0)| + |Varint(v)|
    case Fixed64(f, _) => |Key(f, 1)| + 8
    case Length(f, bs) => |Key(f, 2)| + |Varint(|bs|)| + |bs|
    case Fixed32(f, _) => |Key(f, 5)| + 4
  }

  function Shortest(ws: seq<Wire>): nat {
    if ws == [] then 0 else ShortestRecord(ws[0]) + Shortest(ws[1..])
  }

  lemma RecordIsNoShorter(bs: seq<byte>)
    requires ReadRecord(bs).Some?
    ensures var (w, n) := ReadRecord(bs).value; ShortestRecord(w) <= n
  {
    hide ReadVarint, Varint;
    var (key, n) := ReadVarint(bs, 10).value;
    VarintMinimal(bs, 10);
    assert key == 8 * (key / 8) + key % 8;
    if key % 8 == 0 || key % 8 == 2 {
      VarintMinimal(bs[n..], 10);
    }
  }

  lemma {:induction false} DecodedIsNoShorter(bs: seq<byte>)
    requires Decode(bs).Some?
    ensures Shortest(Decode(bs).value) <= |bs|
    decreases |bs|
  {
    if bs != [] {
      var (w, n) := ReadRecord(bs).value;
      RecordIsNoShorter(bs);
      DecodedIsNoShorter(bs[n..]);
      assert Decode(bs).value[1..] == Decode(bs[n..]).value;
    }
  }

  lemma {:induction false} PackedLength(items: seq<Item>)
    requires AllReadable(items) && Pack(items).Ok?
    ensures |Pack(items).bytes| <= Shortest(Records(items))
    ensures !NoHalfVarint(items) ==> |Pack(items).bytes| < Shortest(Records(items))
    decreases |items|
  {
    if items != [] {
      PackedLength(items[1..]);
      if Emitted(items[0]) {
        assert Records(items)[1..] == Records(items[1..]);
      } else {
        assert Records(items) == Records(items[1..]);
      }
    }
  }

  // Decoding what was packed gives one record for every entry that was emitted,
  // in order, if and only if no entry is a half varint.
  lemma DecodeInvertsPack(items: seq<Item>)
    requires AllReadable(items) && Pack(items).Ok? && Small(items)
    ensures Decode(Pack(items).bytes) == Some(Records(items)) <==> NoHalfVarint(items)
  {
    if NoHalfVarint(items) {
      DecodesToRecords(items);
    } else {
      PackedLength(items);
      if Decode(Pack(items).bytes).Some? {
        DecodedIsNoShorter(Pack(items).bytes);
      }
    }
  }

  // ---------- every depth ----------

  predicate SmallInside(it: Item)
    requires Readable(it)
    decreases it
  {
    SmallItem(it) && (WireType(it) > 5 || Skipped(it) || !Embedded(it) || SmallAllTheWay(it.data.items))
  }

  predicate SmallAllTheWay(items: seq<Item>)
    requires AllReadable(items)
    decreases items
  {
    items == [] || (SmallInside(items[0]) && SmallAllTheWay(items[1..]))
  }

  // bs decodes to the records of `items`, and so, down to the leaves, does the
  // payload of every embedded message.
  predicate Mirrors(bs: seq<byte>, items: seq<Item>)
    requires AllReadable(items) && Pack(items).Ok?
    decreases items, 1
  {
    Decode(bs) == Some(Records(items)) && NestedMirrors(items)
  }

  predicate MirrorsInside(it: Item)
    requires Readable(it) && PackItem(it).Ok?
    decreases it
  {
    Emitted(it) && Embedded(it) ==> Mirrors(RecordOf(it).bytes, it.data.items)
  }

  predicate NestedMirrors(items: seq<Item>)
    requires AllReadable(items) && Pack(items).Ok?
    decreases items, 0
  {
    items == [] || (MirrorsInside(items[0]) && NestedMirrors(items[1..]))
  }

  // No half varint in the list or, at any depth, in a message packed into it.
  predicate WholeInside(it: Item)
    requires Readable(it)
    decreases it
  {
    !HalfVarint(it) && (Emitted(it) && Embedded(it) ==> WholeAllTheWay(it.data.items))
  }

  predicate WholeAllTheWay(items: seq<Item>)
    requires AllReadable(items)
    decreases items
  {
    items == [] || (WholeInside(items[0]) && WholeAllTheWay(items[1..]))
  }

  lemma {:induction false} SmallHere(items: seq<Item>)
    requires AllReadable(items) && SmallAllTheWay(items)
    ensures Small(items)
    decreases |items|
  {
    if items != [] {
      SmallHere(items[1..]);
    }
  }

  // The round trip at every depth, if and only if there is no half varint at any.
  lemma {:induction false} PackRoundTrip(items: seq<Item>)
    requires AllReadable(items) && Pack(items).Ok? && SmallAllTheWay(items)
    ensures Mirrors(Pack(items).bytes, items) <==> WholeAllTheWay(items)
    decreases items, 1
  {
    SmallHere(items);
    DecodeInvertsPack(items);
    PackNested(items);
  }

  lemma PackFirst(items: seq<Item>)
    requires AllReadable(items) && items != [] && Pack(items).Ok?
    ensures PackItem(items[0]).Ok? && Pack(items[1..]).Ok?
  {
  }

  lemma {:induction false} PackNested(items: seq<Item>)
    requires AllReadable(items) && Pack(items).Ok? && SmallAllTheWay(items)
    ensures NoHalfVarint(items) && NestedMirrors(items) <==> WholeAllTheWay(items)
    decreases items, 0
  {
    hide Pack, PackItem, RecordOf, Mirrors, HalfVarint;
    if items != [] {
      PackFirst(items);
      PackInside(items[0]);
      PackNested(items[1..]);
    }
  }

  lemma {:induction false} PackInside(it: Item)
    requires Readable(it) && PackItem(it).Ok? && SmallInside(it)
    ensures MirrorsInside(it) <==> (Emitted(it) && Embedded(it) ==> WholeAllTheWay(it.data.items))
    decreases it
  {
    if Emitted(it) && Embedded(it) {
      PackRoundTrip(it.data.items);
    }
  }

  // ---------- declared widths ----------

  // The width of a varint entry is that of a C integer (0 stands for 8).
  predicate ProperWidth(length: byte) {
    length == 0 || length == 1 || length == 2 || length == 4 || length == 8
  }

  lemma {:induction false} ZeroBytes(b: seq<byte>)
    ensures LittleEndian(b) == 0 <==> forall k :: 0 <= k < |b| ==> b[k] == 0
    decreases |b|
  {
    if b != [] {
      ZeroBytes(b[1..]);
      assert b == [b[0]] + b[1..];
    }
  }

  // The entry is emitted exactly when its value is not zero, and then with it.
  predicate Faithful(it: Item)
    requires Readable(it) && WireType(it) == 0 && !Skipped(it)
  {
    (Emitted(it) <==> VarintValue(it) != 0) && !HalfVarint(it)
  }

  // With type byte 0 and a proper width the only varint left out is zero, and none is half.
  lemma ProperWidthsAreWhole(it: Item)
    requires Readable(it) && it.typ == 0 && !Skipped(it) && ProperWidth(it.length)
    ensures Faithful(it)
  {
    var n := if it.length == 0 then 8 else it.length;
    ZeroBytes(it.data.b[..n]);
    assert forall k :: 0 <= k < n ==> it.data.b[..n][k] == it.data.b[k];
  }

  // What goes wrong otherwise: a zero under another type byte, a byte hidden behind the
  // width, or one beyond the eight bytes of the value.
  lemma Unfaithful(typ: byte, field: byte, length: byte) returns (b: seq<byte>)
    requires typ % 8 == 0 && !(typ == 0 && ProperWidth(length))
    ensures |b| >= 8 && |b| >= length && !Faithful(Item(typ, field, Bytes(b), length))
  {
    var at := if length < 8 then length else 8;
    var mark: byte := if typ == 0 then 1 else 0;
    b := seq(at, _ => 0) + [mark] + seq(248, _ => 0);
    var it := Item(typ, field, Bytes(b), length);
    if typ == 0 && length < 8 {
      ZeroBytes(b[..8]);
      assert b[..8][at] == mark;
    } else {
      var n := if length == 1 || length == 2 || length == 4 then length as nat else 8;
      ZeroBytes(b[..n]);
      assert forall k :: 0 <= k < n ==> b[..n][k] == b[k];
      assert typ == 0 ==> b[8] == 1;
    }
  }

  // A type byte and a width are safe for all values if and only if the type byte is 0
  // and the width proper.
  lemma SafeExactly(typ: byte, field: byte, length: byte)
    requires typ % 8 == 0
    ensures (forall b: seq<byte> :: |b| >= 8 && |b| >= length ==> Faithful(Item(typ, field, Bytes(b), length)))
       <==> typ == 0 && ProperWidth(length)
  {
    if typ == 0 && ProperWidth(length) {
      forall b: seq<byte> | |b| >= 8 && |b| >= length ensures Faithful(Item(typ, field, Bytes(b), length)) {
        ProperWidthsAreWhole(Item(typ, field, Bytes(b), length));
      }
    } else {
      var b := Unfaithful(typ, field, length);
    }
  }

  lemma NothingReads()
    ensures ReadVarint([], 10) == None
  {
  }

  lemma KeyAlone(field: byte)
    requires field != 0
    ensures Decode(Key(field, 0)) == None
  {
    hide Key, ReadVarint;
    var key := Key(field, 0);
    KeyReadsBack(field, 0, []);
    assert key + [] == key && key[|key|..] == [];
    NothingReads();
  }

  lemma PackOne(it: Item)
    requires Readable(it) && PackItem(it).Ok?
    ensures AllReadable([it]) && Pack([it]) == PackItem(it)
  {
    hide PackItem, Readable;
    assert [it][1..] == [];
    assert PackItem(it).bytes + [] == PackItem(it).bytes;
  }

  // A half varint alone is a key without a value, which cannot be decoded.
  lemma DanglingKey(it: Item)
    requires Readable(it) && HalfVarint(it) && it.field != 0
    ensures AllReadable([it]) && Pack([it]) == Ok(Key(it.field, 0)) && Decode(Key(it.field, 0)) == None
  {
    hide LittleEndian, Key, Pack, Decode;
    assert PackItem(it) == Ok(Key(it.field, 0) + []);
    PackOne(it);
    KeyAlone(it.field);
  }

  // Only the ninth byte is not zero.
  lemma NinthByte(b: seq<byte>)
    requires b == [0, 0, 0, 0, 0, 0, 0, 0, 1]
    ensures Readable(Item(0, 1, Bytes(b), 9)) && HalfVarint(Item(0, 1, Bytes(b), 9))
  {
    assert b[8] == 1;
    ZeroBytes(b[..8]);
    hide LittleEndian;
  }

  // Zero under type byte 8.
  lemma ZeroOfTypeEight(b: seq<byte>)
    requires b == [0, 0, 0, 0, 0, 0, 0, 0]
    ensures Readable(Item(8, 1, Bytes(b), 8)) && HalfVarint(Item(8, 1, Bytes(b), 8))
  {
    ZeroBytes(b[..8]);
    hide LittleEndian;
  }

  // Without either, at any depth, nothing is half.
  predicate ProperItem(it: Item)
    requires Readable(it)
    decreases it
  {
    WireType(it) > 5 || Skipped(it)
    || if Embedded(it) then ProperWidths(it.data.items)
       else WireType(it) == 0 ==> it.typ == 0 && ProperWidth(it.length)
  }

  predicate ProperWidths(items: seq<Item>)
    requires AllReadable(items)
    decreases items
  {
    items == [] || (ProperItem(items[0]) && ProperWidths(items[1..]))
  }

  lemma {:induction false} ProperIsWhole(items: seq<Item>)
    requires AllReadable(items) && ProperWidths(items)
    ensures WholeAllTheWay(items)
    decreases items, 0
  {
    if items != [] {
      ProperItemIsWhole(items[0]);
      ProperIsWhole(items[1..]);
    }
  }

  lemma {:induction false} ProperItemIsWhole(it: Item)
    requires Readable(it) && ProperItem(it)
    ensures WholeInside(it)
    decreases it
  {
    if Emitted(it) && Embedded(it) {
      ProperIsWhole(it.data.items);
    } else if WireType(it) == 0 && !Skipped(it) {
      ProperWidthsAreWhole(it);
    }
  }

  // ---------- one entry, written out ----------

  // The number of an entry in 1, 2, 4 or otherwise 8 bytes.
  function NumberOf(it: Item): nat
    requires it.data.Bytes? && |it.data.b| >= 8
  {
    if it.length == 1 then it.data.b[0] else if it.length == 2 then Two(it.data.b)
    else if it.length == 4 then Four(it.data.b) else Eight(it.data.b)
  }

  lemma OneRecord(it: Item)
    requires Readable(it) && !Embedded(it) && PackItem(it).Ok? && !HalfVarint(it)
    requires AllReadable([it]) && Pack([it]).Ok?
    ensures Records([it]) == (if Emitted(it) then [RecordOf(it)] else []) && NoHalfVarint([it]) && Small([it])
  {
    hide PackItem, Readable, HalfVarint, Emitted, RecordOf;
    assert [it][1..] == [];
  }

  lemma OneDecodes(it: Item)
    requires Readable(it) && !Embedded(it) && PackItem(it).Ok? && !HalfVarint(it)
    ensures Decode(PackItem(it).bytes) == Some(if Emitted(it) then [RecordOf(it)] else [])
  {
    hide PackItem, Readable, HalfVarint, Emitted, RecordOf, Decode;
    PackOne(it);
    assert [it][1..] == [];
    OneRecord(it);
    DecodeInvertsPack([it]);
  }

  // What each kind of entry other than a message puts on the wire: a number that is
  // not zero, eight bytes, a byte string, or four bytes; and nothing for NULL, for the
  // deprecated types, and for a number of type byte 0 whose bytes are all zero.
  lemma EntrySays(it: Item)
    requires Readable(it) && it.typ % 8 <= 5 && !(it.typ % 8 == 2 && it.typ >= 128) && it.field != 0
    ensures PackItem(it).Ok?
    ensures var w, d, bs := it.typ % 8, it.data, PackItem(it).bytes;
            if d.Null? || w == 3 || w == 4 then bs == []
            else if w == 0 then
              var n := if it.length == 0 then 8 else it.length;
              if it.typ == 0 && forall k :: 0 <= k < n ==> d.b[k] == 0 then bs == []
              else NumberOf(it) != 0 ==> Decode(bs) == Some([Number(it.field, NumberOf(it))])
            else Decode(bs) == Some([if w == 1 then Fixed64(it.field, d.b[..8])
                                     else if w == 2 then Length(it.field, d.b[..it.length])
                                     else Fixed32(it.field, d.b[..4])])
  {
    hide LittleEndian, Key, Varint, Groups, Decode;
    if it.data.Bytes? && it.typ % 8 == 0 {
      ValueIs(it);
    }
    if !HalfVarint(it) {
      OneDecodes(it);
    }
  }

  // What is refused: the wire types above 5, and field 0 for all that would be put on
  // the wire.
  lemma EntryRefused(it: Item)
    requires Readable(it)
    ensures it.typ % 8 > 5 ==> PackItem(it) == Err(-1)
    ensures it.typ % 8 <= 5 && it.field == 0 ==>
              PackItem(it) == if Emitted(it) then Err(-4) else Ok([])
  {
    hide LittleEndian, Key, Varint, Groups;
  }
}
