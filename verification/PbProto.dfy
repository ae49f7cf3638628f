/**
 proto_gen_action: pack the action core, sign those bytes, pack the core again
 inside the message that carries the key and the signature.
 */
module PbProto {
  import opened Prelude
  import opened Buffers
  import opened Protobuf
  import opened ProtobufTheorems
  import opened PbPack

  const VARINT: byte := 0
  const LD: byte := 2
  const EMB: byte := 0x82

  type Key65 = s: seq<byte> | |s| == 65 witness seq(65, _ => 0)

  predicate Number8(d: Data) {
    d.Null? || (d.Bytes? && |d.b| == 8)
  }

  // A string or a byte array, or NULL.
  predicate Text(d: Data) {
    d.Null? || d.Bytes?
  }

  // The caller's optional fields; the numbers are 8-byte objects.
  datatype Core = Core(version: Data, nonce: Data, gasLimit: Data, gasPrice: Data) {
    predicate Valid() {
      Number8(version) && Number8(nonce) && Number8(gasLimit) && Text(gasPrice)
    }
  }

  // A length in a field of one byte.
  function Length8(d: Data): byte {
    match d
    case Bytes(b) => |b| % 256
    case _ => 0
  }

  function ActCore(core: Core, actionId: byte, action: seq<Item>): seq<Item>
    requires |action| < 256
  {
    [Item(VARINT, 1, core.version, 0), Item(VARINT, 2, core.nonce, 0), Item(VARINT, 3, core.gasLimit, 0),
     Item(LD, 4, core.gasPrice, Length8(core.gasPrice)), Item(EMB, actionId, Message(action), |action|)]
  }

  function Signed(actCore: seq<Item>, publicKey: Key65, signature: Key65): seq<Item>
    requires |actCore| == 5
  {
    [Item(EMB, 1, Message(actCore), 5), Item(LD, 2, Bytes(publicKey), 65), Item(LD, 3, Bytes(signature), 65)]
  }

  lemma {:induction false} EachReadable(items: seq<Item>)
    requires forall i :: 0 <= i < |items| ==> Readable(items[i])
    ensures AllReadable(items)
    decreases |items|
  {
    if items != [] {
      EachReadable(items[1..]);
    }
  }

  lemma FiveReadable(a: Item, b: Item, c: Item, d: Item, e: Item)
    requires Readable(a) && Readable(b) && Readable(c) && Readable(d) && Readable(e)
    ensures AllReadable([a, b, c, d, e])
  {
    hide Readable, AllReadable;
    EachReadable([a, b, c, d, e]);
  }

  lemma NumberReadable(field: byte, d: Data)
    requires Number8(d)
    ensures Readable(Item(VARINT, field, d, 0))
  {
  }

  lemma BytesReadable(field: byte, d: Data)
    requires Text(d)
    ensures Readable(Item(LD, field, d, Length8(d)))
  {
  }

  lemma MessageReadable(field: byte, items: seq<Item>)
    requires AllReadable(items) && |items| < 256
    ensures Readable(Item(EMB, field, Message(items), |items|))
  {
  }

  lemma CoreReadable(core: Core, actionId: byte, action: seq<Item>)
    requires core.Valid() && |action| < 256 && AllReadable(action)
    ensures AllReadable(ActCore(core, actionId, action))
  {
    hide Readable, Number8, AllReadable;
    NumberReadable(1, core.version);
    NumberReadable(2, core.nonce);
    NumberReadable(3, core.gasLimit);
    BytesReadable(4, core.gasPrice);
    MessageReadable(actionId, action);
    FiveReadable(Item(VARINT, 1, core.version, 0), Item(VARINT, 2, core.nonce, 0), Item(VARINT, 3, core.gasLimit, 0),
                 Item(LD, 4, core.gasPrice, Length8(core.gasPrice)), Item(EMB, actionId, Message(action), |action|));
  }

  // A length-delimited record as it is packed.
  function Framed(field: byte, body: seq<byte>): (bs: seq<byte>)
    ensures bs != []
  {
    Key(field, 2) + (Varint(|body|) + body)
  }

  // The signed message.
  function Sealed(core: seq<byte>, publicKey: Key65, signature: Key65): seq<byte> {
    Framed(1, core) + (Framed(2, publicKey) + Framed(3, signature))
  }

  lemma PackCons(it: Item, rest: seq<Item>)
    requires Readable(it) && AllReadable(rest) && PackItem(it).Ok?
    ensures AllReadable([it] + rest) && Pack([it] + rest) == Prepend(PackItem(it).bytes, Pack(rest))
  {
    assert ([it] + rest)[1..] == rest;
  }

  lemma PacksSealed(actCore: seq<Item>, publicKey: Key65, signature: Key65)
    requires |actCore| == 5 && AllReadable(actCore) && Pack(actCore).Ok?
    ensures var items := Signed(actCore, publicKey, signature);
            AllReadable(items) && Pack(items) == Ok(Sealed(Pack(actCore).bytes, publicKey, signature))
  {
    var items := Signed(actCore, publicKey, signature);
    assert Readable(items[0]) && Readable(items[1]) && Readable(items[2]);
    EachReadable(items);
    assert publicKey[..65] == publicKey && signature[..65] == signature;
    assert PackItem(items[1]) == Ok(Framed(2, publicKey));
    assert PackItem(items[2]) == Ok(Framed(3, signature));
    assert PackItem(items[0]) == Ok(Framed(1, Pack(actCore).bytes));
    hide PackItem, Framed, Readable;
    PackCons(items[2], []);
    PackCons(items[1], items[2..]);
    PackCons(items[0], items[1..]);
    assert [items[1]] + items[2..] == items[1..] && [items[0]] + items[1..] == items;
    assert items[2..] == [items[2]] + [];
    assert PackItem(items[2]).bytes + [] == PackItem(items[2]).bytes;
  }

  lemma DecodeCons(bs: seq<byte>, w: Wire, rest: seq<byte>)
    requires bs != [] && ReadRecord(bs + rest) == Some((w, |bs|)) && Decode(rest).Some?
    ensures Decode(bs + rest) == Some([w] + Decode(rest).value)
  {
    assert (bs + rest)[|bs|..] == rest;
  }

  lemma FramedReadsBack(field: byte, body: seq<byte>, tail: seq<byte>)
    requires field != 0 && (|body| < Pow(256, 8) || |body| == 65)
    ensures ReadRecord(Framed(field, body) + tail) == Some((Length(field, body), |Framed(field, body)|))
  {
    assert 65 < Pow(256, 8) by { assert Pow(256, 8) == 0x1_0000_0000_0000_0000; }
    LengthReadsBack(field, body, tail);
  }

  lemma DecodeNothing()
    ensures Decode([]) == Some([])
  {
  }

  // Decoding the signed message gives back the core's bytes, the key and the signature.
  lemma OpensSealed(core: seq<byte>, publicKey: Key65, signature: Key65)
    requires |core| < Pow(256, 8)
    ensures Decode(Sealed(core, publicKey, signature))
         == Some([Length(1, core), Length(2, publicKey), Length(3, signature)])
  {
    hide Framed, ReadRecord, Pow, Decode;
    var second, third := Framed(2, publicKey), Framed(3, signature);
    FramedReadsBack(3, signature, []);
    FramedReadsBack(2, publicKey, third);
    FramedReadsBack(1, core, second + third);
    DecodeNothing();
    DecodeCons(third, Length(3, signature), []);
    assert third + [] == third;
    DecodeCons(second, Length(2, publicKey), third);
    DecodeCons(Framed(1, core), Length(1, core), second + third);
    var l1, l2, l3 := Length(1, core), Length(2, publicKey), Length(3, signature);
    assert [l1] + ([l2] + ([l3] + [])) == [l1, l2, l3];
  }

  // ---------- what the signed core says ----------

  // A number is left out when it is absent or zero, a string when it is absent.
  function NumberField(field: nat, d: Data): seq<Wire>
    requires Number8(d)
  {
    if d.Null? || Eight(d.b) == 0 then [] else [Number(field, Eight(d.b))]
  }

  // Of the bytes of a string as many as one byte can count.
  function BytesField(field: nat, d: Data): seq<Wire>
    requires Text(d)
  {
    if d.Null? then [] else [Length(field, d.b[..|d.b| % 256])]
  }

  // The records of the core around the packed action.
  function CoreRecords(core: Core, actionId: byte, action: seq<byte>): seq<Wire>
    requires core.Valid()
  {
    NumberField(1, core.version) + NumberField(2, core.nonce) + NumberField(3, core.gasLimit)
    + BytesField(4, core.gasPrice) + [Length(actionId, action)]
  }

  // The records of one entry.
  function EntryRecords(it: Item): seq<Wire>
    requires Readable(it) && PackItem(it).Ok?
  {
    if Emitted(it) then [RecordOf(it)] else []
  }

  lemma NumberRecords(field: byte, d: Data)
    requires Number8(d) && field != 0
    ensures var it := Item(VARINT, field, d, 0);
            Readable(it) && PackItem(it).Ok? && EntryRecords(it) == NumberField(field, d) && !HalfVarint(it)
  {
    var it := Item(VARINT, field, d, 0);
    if d.Bytes? {
      ProperWidthsAreWhole(it);
      ValueIs(it);
      assert d.b[..8] == d.b;
    }
  }

  lemma BytesRecords(field: byte, d: Data)
    requires Text(d) && field != 0
    ensures var it := Item(LD, field, d, Length8(d));
            Readable(it) && PackItem(it).Ok? && EntryRecords(it) == BytesField(field, d) && !HalfVarint(it)
  {
  }

  lemma MessageRecords(field: byte, items: seq<Item>)
    requires AllReadable(items) && |items| < 256 && Pack(items).Ok? && field != 0
    ensures var it := Item(EMB, field, Message(items), |items|);
            && Readable(it) && PackItem(it).Ok? && EntryRecords(it) == [Length(field, Pack(items).bytes)]
            && !HalfVarint(it) && |PackItem(it).bytes| > |Pack(items).bytes|
  {
  }

  lemma RecordsAre(items: seq<Item>)
    requires AllReadable(items) && Pack(items).Ok? && items != []
    ensures PackItem(items[0]).Ok? && Pack(items[1..]).Ok?
    ensures Records(items) == EntryRecords(items[0]) + Records(items[1..])
  {
  }

  // One entry in front.
  lemma RecordsCons(it: Item, rest: seq<Item>)
    requires Readable(it) && AllReadable(rest) && PackItem(it).Ok? && Pack(rest).Ok?
    ensures var items := [it] + rest;
            && AllReadable(items) && Pack(items).Ok? && Records(items) == EntryRecords(it) + Records(rest)
            && (NoHalfVarint(items) <==> !HalfVarint(it) && NoHalfVarint(rest))
            && (Small(items) <==> SmallItem(it) && Small(rest))
            && Pack(items).bytes == PackItem(it).bytes + Pack(rest).bytes
  {
    hide PackItem, Readable, EntryRecords, HalfVarint, SmallItem;
    assert ([it] + rest)[0] == it && ([it] + rest)[1..] == rest;
    RecordsAre([it] + rest);
  }

  lemma OneLast(it: Item)
    requires Readable(it) && PackItem(it).Ok? && !HalfVarint(it)
    ensures AllReadable([it]) && Pack([it]).Ok? && Records([it]) == EntryRecords(it)
    ensures NoHalfVarint([it]) && (Small([it]) <==> SmallItem(it)) && Pack([it]).bytes == PackItem(it).bytes
  {
    hide PackItem, Readable, EntryRecords, HalfVarint, SmallItem;
    RecordsCons(it, []);
    assert [it] + [] == [it];
  }

  // A good entry in front of a good list.
  lemma GoodCons(it: Item, rest: seq<Item>)
    requires Readable(it) && PackItem(it).Ok? && !HalfVarint(it) && SmallItem(it)
    requires AllReadable(rest) && Pack(rest).Ok? && NoHalfVarint(rest)
    ensures var items := [it] + rest;
            && AllReadable(items) && Pack(items).Ok? && NoHalfVarint(items) && (Small(items) <==> Small(rest))
            && Records(items) == EntryRecords(it) + Records(rest)
            && |Pack(items).bytes| >= |Pack(rest).bytes|
  {
    hide *;
    RecordsCons(it, rest);
  }

  lemma PlainIsSmall(it: Item)
    requires Readable(it) && !Embedded(it)
    ensures SmallItem(it)
  {
  }

  lemma MessageIsSmall(field: byte, items: seq<Item>)
    requires AllReadable(items) && |items| < 256 && Pack(items).Ok?
    ensures var it := Item(EMB, field, Message(items), |items|);
            Readable(it) && (SmallItem(it) <==> |Pack(items).bytes| < Pow(256, 8))
  {
  }

  lemma Five(a: Item, b: Item, c: Item, d: Item, e: Item)
    ensures [a, b, c, d, e] == [a] + ([b] + ([c] + ([d] + [e])))
  {
  }

  lemma Joined(a: seq<Wire>, b: seq<Wire>, c: seq<Wire>, d: seq<Wire>, e: seq<Wire>)
    ensures a + (b + (c + (d + e))) == a + b + c + d + e
  {
  }

  // The core packs whenever the action does, and decodes to its records.
  lemma CoreSays(core: Core, actionId: byte, action: seq<Item>)
    requires core.Valid() && |action| < 256 && AllReadable(action)
    requires actionId != 0 && Pack(action).Ok?
    ensures var items, packed := ActCore(core, actionId, action), Pack(action).bytes;
            && AllReadable(items) && Pack(items).Ok? && |Pack(items).bytes| >= |packed|
            && (|packed| < Pow(256, 8) ==> Decode(Pack(items).bytes) == Some(CoreRecords(core, actionId, packed)))
  {
    hide PackItem, Pack, Readable, AllReadable, EntryRecords, HalfVarint, SmallItem, NoHalfVarint, Small, Records;
    hide Decode, Pow, NumberField, BytesField, Number8;
    var v, n, g := Item(VARINT, 1, core.version, 0), Item(VARINT, 2, core.nonce, 0), Item(VARINT, 3, core.gasLimit, 0);
    var p := Item(LD, 4, core.gasPrice, Length8(core.gasPrice));
    var e := Item(EMB, actionId, Message(action), |action|);
    NumberRecords(1, core.version);
    NumberRecords(2, core.nonce);
    NumberRecords(3, core.gasLimit);
    BytesRecords(4, core.gasPrice);
    MessageRecords(actionId, action);
    PlainIsSmall(v);
    PlainIsSmall(n);
    PlainIsSmall(g);
    PlainIsSmall(p);
    MessageIsSmall(actionId, action);
    OneLast(e);
    GoodCons(p, [e]);
    GoodCons(g, [p] + [e]);
    GoodCons(n, [g] + ([p] + [e]));
    GoodCons(v, [n] + ([g] + ([p] + [e])));
    Five(v, n, g, p, e);
    if Small([v, n, g, p, e]) {
      DecodeInvertsPack([v, n, g, p, e]);
    }
    Joined(EntryRecords(v), EntryRecords(n), EntryRecords(g), EntryRecords(p), EntryRecords(e));
  }

  lemma MessageFails(field: byte, items: seq<Item>)
    requires AllReadable(items) && |items| < 256 && (field == 0 || Pack(items).Err?)
    ensures var it := Item(EMB, field, Message(items), |items|);
            Readable(it) && PackItem(it) == Err(if field == 0 then ERR_ENCBUF else Pack(items).code)
  {
  }

  // A list whose entries before k pack, and whose entry k does not.
  lemma {:induction false} FailsBehind(items: seq<Item>, k: nat)
    requires AllReadable(items) && k < |items| && (forall i :: 0 <= i <= k ==> Readable(items[i]))
    requires (forall i :: 0 <= i < k ==> PackItem(items[i]).Ok?) && PackItem(items[k]).Err?
    ensures Pack(items) == Err(PackItem(items[k]).code)
    decreases k
  {
    if k > 0 {
      FailsBehind(items[1..], k - 1);
    }
  }

  // And otherwise its error is that of the action, unless the action has no number.
  lemma CoreFails(core: Core, actionId: byte, action: seq<Item>)
    requires core.Valid() && |action| < 256 && AllReadable(action) && (actionId == 0 || Pack(action).Err?)
    ensures AllReadable(ActCore(core, actionId, action))
    ensures Pack(ActCore(core, actionId, action)) == Err(if actionId == 0 then ERR_ENCBUF else Pack(action).code)
  {
    hide Pack, Readable, AllReadable, EntryRecords, HalfVarint, PackItem, NumberField, BytesField, Number8;
    CoreReadable(core, actionId, action);
    MessageFails(actionId, action);
    NumberRecords(1, core.version);
    NumberRecords(2, core.nonce);
    NumberRecords(3, core.gasLimit);
    BytesRecords(4, core.gasPrice);
    FailsBehind(ActCore(core, actionId, action), 4);
  }

  // How large the buffer must be for the call to finish.
  ghost function Room(core: Core, actionId: byte, action: seq<Item>): nat
    requires core.Valid() && |action| < 256 && AllReadable(action)
  {
    CoreReadable(core, actionId, action);
    var actCore := ActCore(core, actionId, action);
    match Pack(actCore)
    case Err(_) => Extent(actCore)
    case Ok(b) => |Sealed(b, seq(65, _ => 0), seq(65, _ => 0))|
  }

  lemma RoomForCore(actCore: seq<Item>)
    requires AllReadable(actCore) && Pack(actCore).Ok?
    ensures Extent(actCore) < |Sealed(Pack(actCore).bytes, seq(65, _ => 0), seq(65, _ => 0))|
  {
    ExtentOfOk(actCore);
  }

  method PackSealed(actCore: seq<Item>, buffer: array<byte>, publicKey: Key65, signature: Key65) returns (n: int)
    requires |actCore| == 5 && AllReadable(actCore) && Pack(actCore).Ok?
    requires |Sealed(Pack(actCore).bytes, publicKey, signature)| < buffer.Length < 0x8000_0000
    modifies buffer
    ensures 0 < n < buffer.Length
    ensures Decode(buffer[..n]) == Some([Length(1, Pack(actCore).bytes), Length(2, publicKey), Length(3, signature)])
  {
    ghost var core, before := Pack(actCore).bytes, buffer[..];
    var items := Signed(actCore, publicKey, signature);
    PacksSealed(actCore, publicKey, signature);
    ExtentOfOk(items);
    assert |core| < Pow(256, 8) by { assert Pow(256, 8) == 0x1_0000_0000_0000_0000; }
    OpensSealed(core, publicKey, signature);
    hide Pack, Extent, Pow, Decode;
    n := PackList(items, buffer, 0, buffer.Length);
    OverwriteRead(before, 0, Sealed(core, publicKey, signature));
    assert buffer[..n] == Sealed(core, publicKey, signature);
  }

  lemma SealedIsLonger(core: seq<byte>)
    ensures |Sealed(core, seq(65, _ => 0), seq(65, _ => 0))| > |core|
  {
  }

  lemma CorePacks(core: Core, actionId: byte, action: seq<Item>)
    requires core.Valid() && |action| < 256 && AllReadable(action)
    requires Room(core, actionId, action) < 0x8000_0000
    ensures var actCore := ActCore(core, actionId, action);
            && AllReadable(actCore)
            && if actionId == 0 then Pack(actCore) == Err(ERR_ENCBUF)
               else match Pack(action)
                 case Err(code) => Pack(actCore) == Err(code)
                 case Ok(packed) =>
                   Pack(actCore).Ok? && Decode(Pack(actCore).bytes) == Some(CoreRecords(core, actionId, packed))
  {
    hide Decode, CoreRecords, ActCore, Pack, AllReadable, Framed;
    CoreReadable(core, actionId, action);
    if actionId == 0 || Pack(action).Err? {
      CoreFails(core, actionId, action);
    } else {
      CoreSays(core, actionId, action);
      var actCore := ActCore(core, actionId, action);
      SealedIsLonger(Pack(actCore).bytes);
      assert 0x8000_0000 < Pow(256, 8) by { assert Pow(256, 8) == 0x1_0000_0000_0000_0000; }
    }
  }

  // proto_gen_action.  `keyParsed`: the private key string was well formed; `sign` is
  // the signer, which may fail; `signed` are the bytes it is given.
  method GenAction(core: Core, actionId: byte, action: seq<Item>, buffer: array<byte>,
                   keyParsed: bool, publicKey: Key65, sign: seq<byte> -> Option<Key65>)
    returns (n: int, ghost signed: seq<byte>)
    requires core.Valid() && |action| < 256 && AllReadable(action)
    requires Room(core, actionId, action) < buffer.Length < 0x8000_0000
    modifies buffer
    ensures if !keyParsed then n == -1
            else if actionId == 0 then n == ERR_ENCBUF
            else match Pack(action)
              case Err(code) => n == code
              case Ok(packed) =>
                && Decode(signed) == Some(CoreRecords(core, actionId, packed))
                && if sign(signed).None? then n == -1
                   else 0 < n < buffer.Length
                        && Decode(buffer[..n])
                           == Some([Length(1, signed), Length(2, publicKey), Length(3, sign(signed).value)])
  {
    signed := [];
    if !keyParsed {
      return -1, [];
    }
    hide CoreRecords, Decode, Pow;
    CoreReadable(core, actionId, action);
    var actCore := ActCore(core, actionId, action);
    ghost var p, before := Pack(actCore), buffer[..];
    if p.Ok? {
      RoomForCore(actCore);
    }
    CorePacks(core, actionId, action);
    n := PackList(actCore, buffer, 0, buffer.Length);
    if n < 0 {
      return n, [];
    }
    OverwriteRead(before, 0, p.bytes);
    assert buffer[..n] == p.bytes;
    signed := p.bytes;
    var signature := sign(buffer[..n]);
    if signature.None? {
      return -1, signed;
    }
    n := PackSealed(actCore, buffer, publicKey, signature.value);
  }

  // ---------- the two actions ----------

  // The message of a transfer (amount, recipient, payload) or an execution (amount,
  // contract, data).
  function Action(a: Data, b: Data, c: Data): (items: seq<Item>)
    ensures |items| == 3
  {
    [Item(LD, 1, a, Length8(a)), Item(LD, 2, b, Length8(b)), Item(LD, 3, c, Length8(c))]
  }

  lemma ActionSays(a: Data, b: Data, c: Data)
    requires Text(a) && Text(b) && Text(c)
    ensures var items := Action(a, b, c);
            && AllReadable(items) && Pack(items).Ok?
            && Decode(Pack(items).bytes) == Some(BytesField(1, a) + BytesField(2, b) + BytesField(3, c))
  {
    hide PackItem, Pack, Readable, AllReadable, EntryRecords, HalfVarint, SmallItem, NoHalfVarint, Small, Records;
    hide Decode, Pow, BytesField;
    var x, y, z := Item(LD, 1, a, Length8(a)), Item(LD, 2, b, Length8(b)), Item(LD, 3, c, Length8(c));
    BytesRecords(1, a);
    BytesRecords(2, b);
    BytesRecords(3, c);
    PlainIsSmall(x);
    PlainIsSmall(y);
    PlainIsSmall(z);
    OneLast(z);
    GoodCons(y, [z]);
    GoodCons(x, [y] + [z]);
    assert [x, y, z] == [x] + ([y] + [z]);
    DecodeInvertsPack([x, y, z]);
    assert EntryRecords(x) + (EntryRecords(y) + EntryRecords(z))
        == EntryRecords(x) + EntryRecords(y) + EntryRecords(z);
  }

  const ACT_TRANSFER: byte := 10
  const ACT_EXECUTION: byte := 12

  // proto_gen_tx_action.
  method GenTxAction(core: Core, amount: Data, recipient: Data, payload: Data, buffer: array<byte>,
                     keyParsed: bool, publicKey: Key65, sign: seq<byte> -> Option<Key65>)
    returns (n: int, ghost signed: seq<byte>, ghost packed: seq<byte>)
    requires core.Valid() && Text(amount) && Text(recipient) && Text(payload)
    requires AllReadable(Action(amount, recipient, payload))
    requires Room(core, 10, Action(amount, recipient, payload)) < buffer.Length < 0x8000_0000
    modifies buffer
    ensures Decode(packed) == Some(BytesField(1, amount) + BytesField(2, recipient) + BytesField(3, payload))
    ensures keyParsed ==> Decode(signed) == Some(CoreRecords(core, 10, packed))
    ensures if !keyParsed || sign(signed).None? then n == -1
            else 0 < n < buffer.Length
                 && Decode(buffer[..n])
                    == Some([Length(1, signed), Length(2, publicKey), Length(3, sign(signed).value)])
  {
    hide Decode, CoreRecords, BytesField, Room;
    ActionSays(amount, recipient, payload);
    var items := Action(amount, recipient, payload);
    packed := Pack(items).bytes;
    n, signed := GenAction(core, ACT_TRANSFER, items, buffer, keyParsed, publicKey, sign);
  }

  // proto_gen_ex_action.
  method GenExAction(core: Core, amount: Data, contract: Data, data: Data, buffer: array<byte>,
                     keyParsed: bool, publicKey: Key65, sign: seq<byte> -> Option<Key65>)
    returns (n: int, ghost signed: seq<byte>, ghost packed: seq<byte>)
    requires core.Valid() && Text(amount) && Text(contract) && Text(data)
    requires AllReadable(Action(amount, contract, data))
    requires Room(core, 12, Action(amount, contract, data)) < buffer.Length < 0x8000_0000
    modifies buffer
    ensures Decode(packed) == Some(BytesField(1, amount) + BytesField(2, contract) + BytesField(3, data))
    ensures keyParsed ==> Decode(signed) == Some(CoreRecords(core, 12, packed))
    ensures if !keyParsed || sign(signed).None? then n == -1
            else 0 < n < buffer.Length
                 && Decode(buffer[..n])
                    == Some([Length(1, signed), Length(2, publicKey), Length(3, sign(signed).value)])
  {
    hide Decode, CoreRecords, BytesField, Room;
    ActionSays(amount, contract, data);
    var items := Action(amount, contract, data);
    packed := Pack(items).bytes;
    n, signed := GenAction(core, ACT_EXECUTION, items, buffer, keyParsed, publicKey, sign);
  }

  // ---------- one-byte lengths ----------

  // A byte string reaches the wire whole if and only if it is shorter than 256
  // bytes: the one-byte length keeps only the remainder.
  lemma LongFieldsAreCut(field: byte, b: seq<byte>)
    requires field != 0
    ensures var it := Item(LD, field, Bytes(b), Length8(Bytes(b)));
            Readable(it) && Emitted(it) && RecordOf(it) == Length(field, b[..|b| % 256])
            && (RecordOf(it) == Length(field, b) <==> |b| < 256)
  {
    var it := Item(LD, field, Bytes(b), Length8(Bytes(b)));
    if |b| < 256 {
      assert b[..|b| % 256] == b;
    } else {
      assert |RecordOf(it).bytes| < |b|;
    }
  }
}
