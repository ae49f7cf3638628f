/**
 pb_pack: the encoder that fills the caller's buffer in place, reserving one byte
 for an embedded message's length and moving the message when that is too few.
 */
module PbPack {
  import opened Buffers
  import opened Protobuf
  import opened ProtobufTheorems

  const ERR_FIELD := -2

  // ---------- numbers ----------

  // The groups of v as the value loop stores them, all marked.
  function Marked(v: nat): (bs: seq<byte>)
    ensures forall i :: 0 <= i < |bs| ==> bs[i] >= 128
  {
    if v == 0 then [] else [128 + v % 128] + Marked(v / 128)
  }

  // Clearing the last mark gives the varint.
  lemma {:induction false} ClearLastMark(v: nat)
    ensures |Marked(v)| == |Groups(v)|
    ensures v > 0 ==> var m := Marked(v); Groups(v) == m[..|m| - 1] + [m[|m| - 1] - 128]
    decreases v
  {
    if v >= 128 {
      ClearLastMark(v / 128);
    } else if v > 0 {
      assert Marked(v / 128) == [];
    }
  }

  lemma NothingOver(s: seq<byte>, at: nat)
    requires at <= |s|
    ensures Overwrite(s, at, []) == s
  {
  }

  // One byte more behind those already written.
  lemma OneMore(s: seq<byte>, at: nat, all: seq<byte>, n: nat)
    requires n < |all| && at + n < |s|
    ensures Overwrite(s, at, all[..n])[at + n := all[n]] == Overwrite(s, at, all[..n + 1])
  {
  }

  lemma NextMarked(v: nat, all: seq<byte>, n: nat)
    requires v > 0 && n <= |all| && Marked(v) == all[n..]
    ensures n < |all| && all[n] == 128 + v % 128 && Marked(v / 128) == all[n + 1..]
  {
    assert all[n..][1..] == all[n + 1..];
  }

  lemma NoneMarked()
    ensures Marked(0) == []
  {
  }

  method StoreGroups(v: nat, buffer: array<byte>, at: nat, size: nat) returns (n: nat)
    requires at + size <= buffer.Length
    modifies buffer
    ensures n == Min(size, |Marked(v)|)
    ensures buffer[..] == Overwrite(old(buffer[..]), at, Marked(v)[..n])
  {
    hide Marked, Overwrite;
    var rest := v;
    n := 0;
    ghost var all, before := Marked(v), buffer[..];
    NothingOver(before, at);
    NoneMarked();
    while n < size && rest != 0
      invariant n <= size && n <= |all| && Marked(rest) == all[n..]
      invariant buffer[..] == Overwrite(before, at, all[..n])
      decreases rest
    {
      NextMarked(rest, all, n);
      OneMore(before, at, all, n);
      buffer[at + n] := 128 + rest % 128;
      rest := rest / 128;
      n := n + 1;
    }
  }

  // The value loop of pb_pack_varint: at most `size` groups of v at `at`.
  // With room for all of them exactly the varint is written (nothing for zero).
  method PackVarint(v: nat, buffer: array<byte>, at: nat, size: nat) returns (n: nat)
    requires at + size <= buffer.Length
    modifies buffer
    ensures n == Min(size, |Groups(v)|)
    ensures |Groups(v)| <= size ==> buffer[..] == Overwrite(old(buffer[..]), at, Groups(v))
    ensures buffer[..at] == old(buffer[..at]) && buffer[at + size..] == old(buffer[at + size..])
  {
    ClearLastMark(v);
    hide Marked, Groups;
    n := StoreGroups(v, buffer, at, size);
    if n == 0 {
      return;
    }
    var last: byte := buffer[at + n - 1] % 128;
    buffer[at + n - 1] := last;
  }

  // pb_encode_varint.
  method EncodeVarint(v: nat, buffer: array<byte>, at: nat, size: nat) returns (n: nat)
    requires |Varint(v)| <= size && at + size <= buffer.Length
    modifies buffer
    ensures n == |Varint(v)| && buffer[..] == Overwrite(old(buffer[..]), at, Varint(v))
  {
    if v <= 127 {
      buffer[at] := v;
      return 1;
    }
    n := PackVarint(v, buffer, at, size);
  }

  // pb_encode_header: field numbers 0, beyond 2^29 - 1 and 19000 to 19999 are refused.
  method EncodeHeader(buffer: array<byte>, at: nat, size: nat, wtype: nat, field: nat) returns (n: int)
    requires wtype < 8 && |Key(field, wtype)| <= size && at + size <= buffer.Length
    modifies buffer
    ensures n == if field == 0 || field > 0x1fffffff || 19000 <= field <= 19999 then ERR_FIELD
                 else |Key(field, wtype)|
    ensures buffer[..] == if n == ERR_FIELD then old(buffer[..]) else Overwrite(old(buffer[..]), at, Key(field, wtype))
  {
    if field == 0 || field > 0x1fffffff || (field >= 19000 && field <= 19999) {
      return ERR_FIELD;
    }
    var header := 8 * field + wtype;
    if header < 127 {
      buffer[at] := header;
      return 1;
    }
    n := PackVarint(header, buffer, at, size);
  }

  // pb_pack_varint, pb_pack_64bit, pb_pack_ld and pb_pack_32bit: the payload of
  // an entry that is not an embedded message.
  method PackPayload(it: Item, buffer: array<byte>, at: nat, size: nat) returns (n: nat)
    requires Readable(it) && !Skipped(it) && WireType(it) <= 5 && !Embedded(it)
    requires |Payload(it)| <= size && at + size <= buffer.Length
    modifies buffer
    ensures n == |Payload(it)| && buffer[..] == Overwrite(old(buffer[..]), at, Payload(it))
  {
    var w := WireType(it);
    if w == 0 {
      n := PackVarint(VarintValue(it), buffer, at, size);
    } else if w == 1 {
      Memcpy(buffer, at, it.data.b[..8]);
      n := 8;
    } else if w == 2 {
      n := EncodeVarint(it.length, buffer, at, size);
      Memcpy(buffer, at + n, it.data.b[..it.length]);
      OverwriteOn(old(buffer[..]), at, Varint(it.length), it.data.b[..it.length]);
      n := n + it.length;
    } else {
      Memcpy(buffer, at, it.data.b[..4]);
      n := 4;
    }
  }

  // pb_varint_is_zero.
  method VarintIsZero(it: Item) returns (zero: bool)
    requires Readable(it) && !Skipped(it) && WireType(it) == 0
    ensures zero == LooksZero(it)
  {
    if it.typ != 0 {
      return false;
    }
    var len := if it.length == 0 then 8 else it.length;
    var i := 0;
    while i < len
      invariant 0 <= i <= len && forall k :: 0 <= k < i ==> it.data.b[k] == 0
    {
      if it.data.b[i] != 0 {
        return false;
      }
      i := i + 1;
    }
    return true;
  }

  // ---------- one entry ----------

  // Everything in p was written at `at`, and nothing else.
  ghost predicate Wrote(p: seq<byte>, at: nat, before: seq<byte>, after: seq<byte>) {
    at + |p| <= |before| && after == Overwrite(before, at, p)
  }

  // Nothing outside the `size` bytes at `at` was touched.
  ghost predicate Within(size: nat, at: nat, before: seq<byte>, after: seq<byte>) {
    && |before| == |after| && at + size <= |before|
    && after[..at] == before[..at] && after[at + size..] == before[at + size..]
  }

  lemma WroteWithin(p: seq<byte>, at: nat, size: nat, before: seq<byte>, after: seq<byte>)
    requires Wrote(p, at, before, after) && |p| <= size && at + size <= |before|
    ensures Within(size, at, before, after)
  {
    OverwriteRead(before, at, p);
    assert after[at + size..] == after[at + |p|..][size - |p|..];
  }

  lemma WroteOn(a: seq<byte>, b: seq<byte>, at: nat, before: seq<byte>, middle: seq<byte>, after: seq<byte>)
    requires Wrote(a, at, before, middle) && Wrote(b, at + |a|, middle, after)
    ensures Wrote(a + b, at, before, after)
  {
    OverwriteOn(before, at, a, b);
  }

  method PackField(it: Item, buffer: array<byte>, at: nat, size: nat) returns (n: nat)
    requires Readable(it) && WireType(it) <= 5 && !Skipped(it) && !Embedded(it) && it.field != 0
    requires |Key(it.field, WireType(it)) + Payload(it)| <= size && at + size <= buffer.Length
    modifies buffer
    ensures var bs := Key(it.field, WireType(it)) + Payload(it);
            n == |bs| && Wrote(bs, at, old(buffer[..]), buffer[..])
  {
    hide Payload, Readable, Key;
    var w := it.typ % 8;
    var header := EncodeHeader(buffer, at, size, w, it.field);
    label keyed:
    var value := PackPayload(it, buffer, at + header, size - header);
    WroteOn(Key(it.field, w), Payload(it), at, old(buffer[..]), old@keyed(buffer[..]), buffer[..]);
    return header + value;
  }

  method PackScalar(it: Item, buffer: array<byte>, at: nat, size: nat) returns (n: int)
    requires Readable(it) && WireType(it) <= 5 && !Skipped(it) && !Embedded(it)
    requires ItemExtent(it) <= size && at + size <= buffer.Length
    modifies buffer
    ensures match PackItem(it)
            case Ok(bs) => n == |bs| && Wrote(bs, at, old(buffer[..]), buffer[..])
            case Err(code) => n == code < 0 && buffer[..] == old(buffer[..])
  {
    if WireType(it) == 0 {
      var zero := VarintIsZero(it);
      if zero {
        return 0;
      }
    }
    if it.field == 0 {
      return ERR_ENCBUF;
    }
    n := PackField(it, buffer, at, size);
  }

  // ---------- lists and embedded messages ----------

  // What packing p into `size` bytes at `at` leaves behind.  With a byte to spare
  // the result is exactly p; filled to the last byte, the buffer may be refused.
  ghost predicate Outcome(p: Packed, extent: nat, size: nat, at: nat, before: seq<byte>, after: seq<byte>, n: int) {
    && Within(size, at, before, after)
    && match p
       case Ok(bs) => (n == |bs| && Wrote(bs, at, before, after)) || (n == ERR_ENCBUF && extent == size > 0)
       case Err(code) => n < 0 && (extent < size ==> n == code)
  }

  lemma WithinOn(key: seq<byte>, at: nat, inner: nat, size: nat, before: seq<byte>, middle: seq<byte>, after: seq<byte>)
    requires Wrote(key, at, before, middle) && Within(inner, at + |key| + 1, middle, after)
    requires |key| + 1 + inner == size
    ensures Within(size, at, before, after)
  {
    OverwriteRead(before, at, key);
    assert after[..at] == after[..at + |key| + 1][..at];
    assert middle[..at] == middle[..at + |key| + 1][..at];
    assert middle[at + size..] == before[at + |key|..][size - |key|..];
  }

  lemma OverwriteOver(s: seq<byte>, i: nat, c: seq<byte>, at: nat, d: seq<byte>)
    requires at <= i && i + |c| <= at + |d| <= |s|
    ensures Overwrite(Overwrite(s, i, c), at, d) == Overwrite(s, at, d)
  {
  }

  lemma LengthFits(len: nat)
    requires len < 0x8000_0000
    ensures |Varint(len)| <= 8
    ensures |Varint(len)| == 1 <==> len <= 127
  {
    assert Pow(128, 8) == 0x100_0000_0000_0000;
    GroupsFit(len, 8);
    if len > 127 {
      assert Groups(len / 128) != [];
    }
  }

  // Writing b behind and then a in front is writing a + b.
  lemma PrefixOver(s: seq<byte>, at: nat, a: seq<byte>, b: seq<byte>)
    requires at + |a| + |b| <= |s|
    ensures Overwrite(Overwrite(s, at + |a|, b), at, a) == Overwrite(s, at, a + b)
  {
  }

  lemma OneByteBefore(s: seq<byte>, body: nat, len: nat)
    requires len <= 127 && body + 1 + len <= |s|
    ensures Varint(len) == [len]
    ensures s[body := len] == Overwrite(s, body, [len] + s[body + 1..body + 1 + len])
  {
  }

  // Puts the length in front of the `len` bytes at body + 1, moving them where
  // one byte is not enough for it.
  method PlaceLength(buffer: array<byte>, body: nat, len: nat) returns (k: nat)
    requires len < 0x8000_0000 && body + 1 + len <= buffer.Length && body + |Varint(len)| + len <= buffer.Length
    modifies buffer
    ensures k == |Varint(len)|
    ensures buffer[..] == Overwrite(old(buffer[..]), body, Varint(len) + old(buffer[body + 1..body + 1 + len]))
  {
    hide Varint, Overwrite;
    LengthFits(len);
    ghost var before, moved := buffer[..], buffer[body + 1..body + 1 + len];
    if len > 127 {
      var lenBytes := new byte[8];
      ghost var empty := lenBytes[..];
      k := EncodeVarint(len, lenBytes, 0, 8);
      OverwriteRead(empty, 0, Varint(len));
      PrefixOver(before, body, Varint(len), moved);
      Memcpy(buffer, body + k, buffer[body + 1..body + 1 + len]);
      Memcpy(buffer, body, lenBytes[..k]);
    } else {
      OneByteBefore(before, body, len);
      buffer[body] := len;
      k := 1;
    }
  }

  // A key, then a message placed one byte after it, then its length put in front.
  lemma MessageDone(key: seq<byte>, b: seq<byte>, at: nat,
                    before: seq<byte>, keyed: seq<byte>, packed: seq<byte>, after: seq<byte>)
    requires Wrote(key, at, before, keyed) && Wrote(b, at + |key| + 1, keyed, packed)
    requires at + |key| + |Varint(|b|)| + |b| <= |before|
    requires after == Overwrite(packed, at + |key|, Varint(|b|) + packed[at + |key| + 1..at + |key| + 1 + |b|])
    ensures Wrote(key + (Varint(|b|) + b), at, before, after)
  {
    OverwriteRead(keyed, at + |key| + 1, b);
    OverwriteOver(keyed, at + |key| + 1, b, at + |key|, Varint(|b|) + b);
    WroteOn(key, Varint(|b|) + b, at, before, keyed, after);
  }

  lemma MessageRoom(it: Item)
    requires Readable(it) && WireType(it) <= 5 && !Skipped(it) && Embedded(it) && it.field != 0
    ensures |Key(it.field, 2)| + 1 + Extent(it.data.items) <= ItemExtent(it)
    ensures match Pack(it.data.items)
            case Err(code) => PackItem(it) == Err(code)
                              && ItemExtent(it) == |Key(it.field, 2)| + 1 + Extent(it.data.items)
            case Ok(b) => PackItem(it) == Ok(Key(it.field, 2) + (Varint(|b|) + b)) && Extent(it.data.items) == |b|
                          && ItemExtent(it) == |Key(it.field, 2)| + |Varint(|b|)| + |b|
  {
    if Pack(it.data.items).Ok? {
      ExtentOfOk(it.data.items);
    }
  }

  lemma FieldZero(it: Item)
    requires Readable(it) && WireType(it) <= 5 && !Skipped(it) && Embedded(it) && it.field == 0
    ensures PackItem(it) == Err(ERR_ENCBUF)
  {
  }

  // The embedded-message branch of pb_pack's loop.
  method PackMessage(it: Item, buffer: array<byte>, at: nat, size: nat) returns (n: int)
    requires Readable(it) && WireType(it) <= 5 && !Skipped(it) && Embedded(it)
    requires ItemExtent(it) <= size < 0x8000_0000 && at + size <= buffer.Length
    modifies buffer
    ensures Outcome(PackItem(it), ItemExtent(it), size, at, old(buffer[..]), buffer[..], n)
    decreases it, 0
  {
    hide Key, Varint, Pack, PackItem, ItemExtent, Extent, Wrote, Overwrite;
    ghost var before := buffer[..];
    if it.field == 0 {
      FieldZero(it);
      return ERR_ENCBUF;
    }
    MessageRoom(it);
    ghost var key, inner := Key(it.field, 2), Pack(it.data.items);
    var header := EncodeHeader(buffer, at, size, 2, it.field);
    ghost var keyed := buffer[..];
    var len := PackList(it.data.items, buffer, at + header + 1, size - header - 1);
    ghost var packed := buffer[..];
    WithinOn(key, at, size - header - 1, size, before, keyed, packed);
    if len < 0 {
      return len;
    }
    var k := PlaceLength(buffer, at + header, len);
    MessageDone(key, inner.bytes, at, before, keyed, packed, buffer[..]);
    WroteWithin(key + (Varint(len) + inner.bytes), at, size, before, buffer[..]);
    return header + k + len;
  }

  // One entry of the list, whatever its kind.
  method PackOne(it: Item, buffer: array<byte>, at: nat, size: nat) returns (n: int)
    requires Readable(it) && ItemExtent(it) <= size < 0x8000_0000 && at + size <= buffer.Length
    modifies buffer
    ensures Outcome(PackItem(it), ItemExtent(it), size, at, old(buffer[..]), buffer[..], n)
    decreases it, 1
  {
    ghost var before := buffer[..];
    if WireType(it) > 5 {
      return ERR_WTYPE;
    }
    if Skipped(it) {
      assert Wrote([], at, before, before);
      return 0;
    }
    if Embedded(it) {
      n := PackMessage(it, buffer, at, size);
    } else {
      n := PackScalar(it, buffer, at, size);
      if n >= 0 {
        WroteWithin(PackItem(it).bytes, at, size, before, buffer[..]);
      }
    }
  }

  lemma WithinAfter(done: seq<byte>, at: nat, size: nat, before: seq<byte>, middle: seq<byte>, after: seq<byte>)
    requires Wrote(done, at, before, middle) && |done| <= size && Within(size - |done|, at + |done|, middle, after)
    ensures Within(size, at, before, after)
  {
    OverwriteRead(before, at, done);
    assert after[..at] == after[..at + |done|][..at];
    assert middle[..at] == middle[..at + |done|][..at];
    assert middle[at + size..] == before[at + |done|..][size - |done|..];
  }

  // The next entry of a list, after the bytes `done`.
  method PackNext(it: Item, buffer: array<byte>, off: nat, packed: nat, size: nat,
                  ghost done: seq<byte>, ghost before: seq<byte>)
    returns (n: int)
    requires Readable(it) && packed + ItemExtent(it) <= size < 0x8000_0000 && off + size <= buffer.Length
    requires packed == |done| && Wrote(done, off, before, buffer[..])
    modifies buffer
    ensures Within(size, off, before, buffer[..])
    ensures match PackItem(it)
            case Ok(bs) => (n == |bs| && Wrote(done + bs, off, before, buffer[..]))
                           || (n == ERR_ENCBUF && packed + ItemExtent(it) == size > 0)
            case Err(code) => n < 0 && (packed + ItemExtent(it) < size ==> n == code)
    decreases it, 2
  {
    ghost var here := buffer[..];
    n := PackOne(it, buffer, off + packed, size - packed);
    WithinAfter(done, off, size, before, here, buffer[..]);
    if n >= 0 {
      WroteOn(done, PackItem(it).bytes, off, before, here, buffer[..]);
    }
  }

  // The first i entries gave `done`.
  ghost predicate Packing(items: seq<Item>, i: nat, done: seq<byte>)
    requires AllReadable(items)
  {
    && i <= |items| && AllReadable(items[i..])
    && Pack(items) == Prepend(done, Pack(items[i..])) && Extent(items) == |done| + Extent(items[i..])
  }

  lemma PackingStep(items: seq<Item>, i: nat, done: seq<byte>)
    requires AllReadable(items) && i < |items| && Packing(items, i, done)
    ensures Readable(items[i]) && |done| + ItemExtent(items[i]) <= Extent(items)
    ensures match PackItem(items[i])
            case Ok(bs) => ItemExtent(items[i]) == |bs| && Packing(items, i + 1, done + bs)
            case Err(code) => Pack(items) == Err(code) && Extent(items) == |done| + ItemExtent(items[i])
  {
    assert items[i..][0] == items[i] && items[i..][1..] == items[i + 1..];
    match PackItem(items[i])
    case Err(_) =>
    case Ok(bs) =>
      match Pack(items[i + 1..])
      case Err(_) =>
      case Ok(rest) => assert done + (bs + rest) == (done + bs) + rest;
  }

  lemma PackingDone(items: seq<Item>, done: seq<byte>)
    requires AllReadable(items) && Packing(items, |items|, done)
    ensures Pack(items) == Ok(done) && Extent(items) == |done|
  {
  }

  // pb_pack.
  method PackList(items: seq<Item>, buffer: array<byte>, off: nat, size: nat) returns (n: int)
    requires AllReadable(items) && Extent(items) <= size < 0x8000_0000 && off + size <= buffer.Length
    modifies buffer
    ensures Outcome(Pack(items), Extent(items), size, off, old(buffer[..]), buffer[..], n)
    ensures Pack(items).Ok? && Extent(items) == size ==> n == if size == 0 then 0 else ERR_ENCBUF
    decreases items
  {
    var packed, i := 0, 0;
    ghost var before, done := buffer[..], [];
    assert items[0..] == items && Wrote(done, off, before, buffer[..]);
    while i < |items|
      invariant 0 <= i <= |items| && packed == |done| && Packing(items, i, done)
      invariant Wrote(done, off, before, buffer[..])
      invariant packed < size || packed == 0
    {
      PackingStep(items, i, done);
      var len := PackNext(items[i], buffer, off, packed, size, done, before);
      if len < 0 {
        return len;
      }
      done := done + PackItem(items[i]).bytes;
      packed := packed + len;
      if packed >= size && len > 0 {
        return ERR_ENCBUF;
      }
      i := i + 1;
    }
    PackingDone(items, done);
    WroteWithin(done, off, size, before, buffer[..]);
    return packed;
  }
}
