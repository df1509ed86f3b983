/** The messages of the protocol byte by byte, as any other program would have to write them. */
module MessagesWire {
  import opened Bytes
  import opened BinnFormat
  import opened BinnWrite
  import opened BinnContainer
  import opened BinnBuilder
  import opened BinnWire
  import opened Messages
  import PageProtocol
  import opened Cluster

  const TYPE: bytes := [116, 121, 112, 101]
  const BITNESS: bytes := [98, 105, 116, 110, 101, 115, 115]
  const PAGESIZE: bytes := [112, 97, 103, 101, 115, 105, 122, 101]
  const PAGECOUNT: bytes := [112, 97, 103, 101, 99, 111, 117, 110, 116]
  const PAGEID: bytes := [112, 97, 103, 101, 105, 100]
  const RIGHTS: bytes := [114, 105, 103, 104, 116, 115]
  const DATA: bytes := [100, 97, 116, 97]
  const BARRIER: bytes := [98, 97, 114, 114, 105, 101, 114]

  lemma Names()
    ensures KEY_TYPE == TYPE && KEY_BITNESS == BITNESS && KEY_PAGESIZE == PAGESIZE && KEY_PAGECOUNT == PAGECOUNT
    ensures KEY_PAGEID == PAGEID && KEY_RIGHTS == RIGHTS && KEY_DATA == DATA && KEY_BARRIER == BARRIER
  {
  }

  /** A field of an object: the length of its name, its name, its value. */
  function Entry(name: bytes, value: bytes): (b: bytes)
    requires |name| < 0x100
    ensures |b| == 1 + |name| + |value|
  {
    [|name|] + name + value
  }

  /** A number: the type of the shortest integer that holds it, and its bytes, the most significant first. */
  function Number(i: int): (b: bytes)
    requires Int32(i)
    ensures |b| <= 5
  {
    if i >= 0x1_0000 then [0x60] + Bytes32(i)
    else if i >= 0x100 then [0x40, i / 0x100, i % 0x100]
    else if i >= 0 then [0x20, i]
    else if i >= -0x80 then [0x21, i + 0x100]
    else if i >= -0x8000 then [0x41, (i + 0x1_0000) / 0x100, (i + 0x1_0000) % 0x100]
    else [0x61] + Bytes32(i + 0x1_0000_0000)
  }

  /** The entries of a message: its number, then its arguments. */
  function MessageEntries(m: Message, pagesize: nat): (entries: seq<bytes>)
    requires WellFormed(m, pagesize) && !m.Unknown? && pagesize < SIZE_LIMIT
    ensures 1 <= |entries| <= 4 && (m.GivePage? ==> |entries| == 4)
    ensures forall k :: 0 <= k < |entries| ==> |entries[k]| <= if m.GivePage? && k == 3 then 10 + pagesize else 16
  {
    match m
    case Connect(b, p) =>
      [Entry(TYPE, Number(0)), Entry(BITNESS, Number(LongToInt(b))), Entry(PAGESIZE, Number(LongToInt(p)))]
    case ConnectAck(b, p, c) =>
      [Entry(TYPE, Number(1)), Entry(BITNESS, Number(ShortToInt(b))), Entry(PAGESIZE, Number(ShortToInt(p))),
       Entry(PAGECOUNT, Number(LongToInt(c)))]
    case LockPage(id, r) =>
      [Entry(TYPE, Number(2)), Entry(PAGEID, Number(LongToInt(id))), Entry(RIGHTS, Number(ShortToInt(r)))]
    case Invalidate(id) => [Entry(TYPE, Number(3)), Entry(PAGEID, Number(LongToInt(id)))]
    case InvalidateAck(id) => [Entry(TYPE, Number(4)), Entry(PAGEID, Number(LongToInt(id)))]
    case GivePage(id, r, data) =>
      [Entry(TYPE, Number(5)), Entry(PAGEID, Number(LongToInt(id))), Entry(RIGHTS, Number(ShortToInt(r))),
       Entry(DATA, [0xC0] + Bytes32(pagesize) + data.value)]
    case SyncBarrier(n) => [Entry(TYPE, Number(6)), Entry(BARRIER, Number(ShortToInt(n)))]
    case BarrierAck => [Entry(TYPE, Number(7))]
    case Terminate => [Entry(TYPE, Number(8))]
  }

  function Concat(entries: seq<bytes>): bytes {
    if entries == [] then [] else entries[0] + Concat(entries[1..])
  }

  /** An object: its type, its size in one byte or in four with the top bit set, the number of its entries, and
      the entries. */
  function Object(entries: seq<bytes>): bytes
    requires |entries| <= 127 && |Concat(entries)| < SIZE_LIMIT
  {
    var content := Concat(entries);
    (if |content| <= 124 then [0xE2, 3 + |content|, |entries|]
     else [0xE2] + Bytes32(0x8000_0000 + 6 + |content|) + [|entries|])
    + content
  }

  /** Every unsigned long and unsigned short can stand in a message, and a page of the page size. */
  lemma AnyArguments(x: int, y: int, r: int, n: int, data: bytes)
    requires 0 <= x < 0x1_0000_0000_0000_0000 && 0 <= y < 0x1_0000_0000_0000_0000 && 0 <= r < 0x1_0000 && 0 <= n < 0x1_0000
    ensures WellFormed(Connect(x, y), |data|) && WellFormed(ConnectAck(r, n, x), |data|)
    ensures WellFormed(LockPage(x, r), |data|) && WellFormed(Invalidate(x), |data|) && WellFormed(InvalidateAck(x), |data|)
    ensures WellFormed(GivePage(x, r, Some(data)), |data|) && WellFormed(SyncBarrier(n), |data|)
    ensures WellFormed(BarrierAck, |data|) && WellFormed(Terminate, |data|)
  {
  }

  // ---------------------------------------------------------------- numbers

  /** The bytes of a short integer, turned round. */
  lemma RawNumber(t: int, raw: bytes)
    requires IsInt(t) && t < 0x80 && |raw| == FixedSize(StorageOf(t))
    ensures var v := IntValue(t, raw);
            Int32(v) || t == 0x60
    ensures var v := IntValue(t, raw);
            && (t == 0x20 ==> Reverse(raw) == [v])
            && (t == 0x21 ==> Reverse(raw) == [if v < 0 then v + 0x100 else v])
            && (t == 0x40 ==> Reverse(raw) == [v / 0x100, v % 0x100])
            && (t == 0x41 && v < 0 ==> Reverse(raw) == [(v + 0x1_0000) / 0x100, (v + 0x1_0000) % 0x100])
            && (t == 0x60 ==> 0 <= v < TWO32 && Reverse(raw) == Bytes32(v))
            && (t == 0x61 && v < 0 ==> Reverse(raw) == Bytes32(v + TWO32))
  {
    assert raw[..|raw|] == raw;
    UnsignedBound(raw);
    if |raw| == 4 { SameWord(Reverse(raw), Bytes32(Unsigned(raw))); }
  }

  /** The type a number is stored under. */
  function NumberType(v: int): int {
    if v >= 0x1_0000 then 0x60 else if v >= 0x100 then 0x40 else if v >= 0 then 0x20
    else if v >= -0x80 then 0x21 else if v >= -0x8000 then 0x41 else 0x61
  }

  lemma NumberOf(t: int, raw: bytes, v: int)
    requires Int32(v) && t == NumberType(v) && |raw| == FixedSize(StorageOf(t)) && IntValue(t, raw) == v
    ensures [t] + Reverse(raw) == Number(v)
  {
    RawNumber(t, raw);
  }

  lemma NumberStored(btype: int, mem: bytes)
    requires (btype == BINN_INT32 && |mem| == 4) || (btype == BINN_INT16 && |mem| == 2)
    ensures var t := NumberType(Signed(mem));
            && Int32(Signed(mem)) && FixedSize(StorageOf(t)) <= |mem|
            && Readable(btype, Some(mem), 0)
            && Emit(btype, Some(mem), 0, true) == Some([t] + Reverse(mem[..FixedSize(StorageOf(t))]))
            && IntValue(t, mem[..FixedSize(StorageOf(t))]) == Signed(mem)
  {
    SignedBound(mem);
    assert mem[..|mem|] == mem;
    NarrowingLosesNothing(btype, mem, btype);
    var raw := mem[..FixedSize(StorageOf(NumberType(Signed(mem))))];
    assert raw[..|raw|] == raw;
  }

  lemma NumberIs(btype: int, mem: bytes)
    requires (btype == BINN_INT32 && |mem| == 4) || (btype == BINN_INT16 && |mem| == 2)
    ensures Readable(btype, Some(mem), 0) && Int32(Signed(mem))
    ensures Emit(btype, Some(mem), 0, true) == Some(Number(Signed(mem)))
  {
    NumberStored(btype, mem);
    var t := NumberType(Signed(mem));
    NumberOf(t, mem[..FixedSize(StorageOf(t))], Signed(mem));
  }

  lemma IntEntry(name: bytes, i: int)
    requires 0 < |name| < 16 && CString(name) && Int32(i)
    ensures FieldOk(IntField(name, i)) && Entry(name, FieldBytes(IntField(name, i))) == Entry(name, Number(i))
  {
    NumberIs(BINN_INT32, StoreSigned(i, 4));
  }

  lemma ShortEntry(name: bytes, i: int)
    requires 0 < |name| < 16 && CString(name) && -0x8000 <= i < 0x8000
    ensures FieldOk(ShortField(name, i)) && Entry(name, FieldBytes(ShortField(name, i))) == Entry(name, Number(i))
  {
    NumberIs(BINN_INT16, StoreSigned(i, 2));
  }

  lemma BlobEntry(name: bytes, data: bytes)
    requires 0 < |name| < 16 && CString(name) && |data| < SIZE_LIMIT
    ensures FieldOk(BlobField(name, data))
    ensures Entry(name, FieldBytes(BlobField(name, data))) == Entry(name, [0xC0] + Bytes32(|data|) + data)
  {
    BlobStored(BINN_BLOB, data, |data|, true);
    assert data[..|data|] == data;
  }

  // ---------------------------------------------------------------- objects

  /** Each field is written as its entry. */
  ghost predicate Writes(fs: seq<Field>, entries: seq<bytes>) {
    && |fs| == |entries|
    && forall k :: 0 <= k < |fs| ==> FieldOk(fs[k]) && Entry(fs[k].name, FieldBytes(fs[k])) == entries[k]
  }

  lemma FieldIsItem(f: Field)
    requires FieldOk(f)
    ensures ItemShaped(BINN_OBJECT, FieldItem(f)) && ValueOk(FieldItem(f).val)
    ensures EncodeKey(FieldItem(f).key) + FieldItem(f).val == Entry(f.name, FieldBytes(f))
  {
    FieldEmits(f);
    WrittenValue(f.btype, Some(f.mem), f.size, true);
  }

  lemma FieldsAreItems(fs: seq<Field>)
    requires FieldsOk(fs)
    ensures ItemsOk(BINN_OBJECT, FieldItems(fs))
  {
    forall k | 0 <= k < |fs|
      ensures ItemShaped(BINN_OBJECT, FieldItems(fs)[k]) && ValueOk(FieldItems(fs)[k].val)
    {
      FieldIsItem(fs[k]);
    }
  }

  lemma {:induction false} LayoutIsConcat(fs: seq<Field>, entries: seq<bytes>)
    requires FieldsOk(fs) && Writes(fs, entries)
    ensures ItemsShaped(BINN_OBJECT, FieldItems(fs)) && Layout(BINN_OBJECT, FieldItems(fs)) == Concat(entries)
    decreases |fs|
  {
    FieldsAreItems(fs);
    if fs != [] {
      FieldIsItem(fs[0]);
      assert FieldItems(fs)[1..] == FieldItems(fs[1..]);
      LayoutIsConcat(fs[1..], entries[1..]);
    }
  }

  lemma HeaderIs(count: nat, content: nat)
    requires count <= 127 && content < SIZE_LIMIT
    ensures EncodeHeader(BINN_OBJECT, count, content) ==
            if content <= 124 then [0xE2, 3 + content, count]
            else [0xE2] + Bytes32(0x8000_0000 + 6 + content) + [count]
  {
    if content <= 124 { assert [0xE2] + [3 + content] + [count] == [0xE2, 3 + content, count]; }
  }

  lemma SerializeIs(items: seq<Item>, entries: seq<bytes>)
    requires ItemsShaped(BINN_OBJECT, items) && |items| == |entries| <= 127
    requires Layout(BINN_OBJECT, items) == Concat(entries) && |Concat(entries)| < SIZE_LIMIT
    ensures Serialize(BINN_OBJECT, items) == Object(entries)
  {
    HeaderIs(|entries|, |Concat(entries)|);
  }

  lemma ObjectIs(fs: seq<Field>, entries: seq<bytes>)
    requires FieldsOk(fs) && Writes(fs, entries) && |entries| <= 127 && |Concat(entries)| < SIZE_LIMIT
    ensures IsObject(Object(entries), FieldItems(fs))
  {
    var items := FieldItems(fs);
    FieldsAreItems(fs);
    LayoutIsConcat(fs, entries);
    SerializeIs(items, entries);
    ReadBack(BINN_OBJECT, items, Serialize(BINN_OBJECT, items));
  }

  // ---------------------------------------------------------------- messages

  lemma ConnectWrites(m: Message, pagesize: nat)
    requires WellFormed(m, pagesize) && (m.Connect? || m.ConnectAck?) && pagesize < SIZE_LIMIT
    ensures Writes(Fields(m, pagesize), MessageEntries(m, pagesize))
  {
    Names();
    KeysAreStrings();
    IntEntry(TYPE, TypeNumber(m));
    match m
    case Connect(b, p) =>
      IntEntry(BITNESS, LongToInt(b));
      IntEntry(PAGESIZE, LongToInt(p));
    case ConnectAck(b, p, c) =>
      ShortEntry(BITNESS, ShortToInt(b));
      ShortEntry(PAGESIZE, ShortToInt(p));
      IntEntry(PAGECOUNT, LongToInt(c));
  }

  lemma PageWrites(m: Message, pagesize: nat)
    requires WellFormed(m, pagesize) && AboutPage(m) && !m.GivePage? && pagesize < SIZE_LIMIT
    ensures Writes(Fields(m, pagesize), MessageEntries(m, pagesize))
  {
    Names();
    KeysAreStrings();
    IntEntry(TYPE, TypeNumber(m));
    IntEntry(PAGEID, LongToInt(m.pageId));
    if m.LockPage? { ShortEntry(RIGHTS, ShortToInt(m.accessRights)); }
  }

  lemma GivePageWrites(m: Message, pagesize: nat)
    requires WellFormed(m, pagesize) && m.GivePage? && pagesize < SIZE_LIMIT
    ensures Writes(Fields(m, pagesize), MessageEntries(m, pagesize))
  {
    Names();
    KeysAreStrings();
    IntEntry(TYPE, 5);
    IntEntry(PAGEID, LongToInt(m.pageId));
    ShortEntry(RIGHTS, ShortToInt(m.accessRights));
    BlobEntry(DATA, m.data.value);
  }

  lemma MessageWrites(m: Message, pagesize: nat)
    requires WellFormed(m, pagesize) && !m.Unknown? && pagesize < SIZE_LIMIT
    ensures Writes(Fields(m, pagesize), MessageEntries(m, pagesize))
  {
    if m.Connect? || m.ConnectAck? {
      ConnectWrites(m, pagesize);
    } else if m.GivePage? {
      GivePageWrites(m, pagesize);
    } else if AboutPage(m) {
      PageWrites(m, pagesize);
    } else {
      Names();
      KeysAreStrings();
      IntEntry(TYPE, TypeNumber(m));
      if m.SyncBarrier? { ShortEntry(BARRIER, ShortToInt(m.slaveToWait)); }
    }
  }

  lemma {:induction false} ConcatBound(entries: seq<bytes>)
    requires entries != [] && forall k :: 0 <= k < |entries| - 1 ==> |entries[k]| <= 16
    ensures |Concat(entries)| <= 16 * (|entries| - 1) + |entries[|entries| - 1]|
  {
    if |entries| > 1 { ConcatBound(entries[1..]); }
  }

  /** Without the page, where there is no memory for it. */
  ghost function KeptEntries(m: Message, pagesize: nat, capacity: nat): seq<bytes>
    requires WellFormed(m, pagesize) && !m.Unknown? && pagesize < SIZE_LIMIT && FieldsOk(Fields(m, pagesize))
  {
    if m.GivePage? && !PageFits(m, pagesize, capacity) then MessageEntries(m, pagesize)[..3] else MessageEntries(m, pagesize)
  }

  lemma KeptWrites(m: Message, pagesize: nat, capacity: nat)
    requires WellFormed(m, pagesize) && !m.Unknown? && pagesize < SIZE_LIMIT && FieldsOk(Fields(m, pagesize))
    ensures Writes(Kept(m, pagesize, capacity), KeptEntries(m, pagesize, capacity))
  {
    MessageWrites(m, pagesize);
  }

  lemma KeptBound(m: Message, pagesize: nat, capacity: nat)
    requires WellFormed(m, pagesize) && !m.Unknown? && pagesize < SIZE_LIMIT && FieldsOk(Fields(m, pagesize))
    ensures var entries := KeptEntries(m, pagesize, capacity);
            |entries| <= 4 && |Concat(entries)| <= 100 + pagesize
  {
    ConcatBound(KeptEntries(m, pagesize, capacity));
  }

  /** Every message dsm_send_msg sends, byte by byte: the length of the object, then the object, with the entries
      of the message, but for a page for which there is no memory. */
  method SendsExactly(m: Message, pagesize: nat, heapLimit: nat) returns (ok: bool, sent: bytes)
    requires WellFormed(m, pagesize) && !m.Unknown? && pagesize + 1024 <= SIZE_LIMIT && heapLimit >= 256
    ensures ok && FieldsOk(Fields(m, pagesize))
    ensures var entries := KeptEntries(m, pagesize, Limit(256, false, heapLimit));
            && |entries| <= 4 && |Concat(entries)| <= 100 + pagesize
            && sent == Bytes32(|Object(entries)|) + Object(entries)
  {
    ghost var payload;
    ok, sent, payload := SendMsg(m, pagesize, heapLimit);
    ghost var capacity := Limit(256, false, heapLimit);
    KeptWrites(m, pagesize, capacity);
    KeptBound(m, pagesize, capacity);
    ObjectIs(Kept(m, pagesize, capacity), KeptEntries(m, pagesize, capacity));
  }

  /** A page that is recalled, in full. */
  lemma InvalidatePageFive()
    ensures Object(MessageEntries(MessageOf(Packet(5, PageProtocol.Invalidate)), 0)) ==
            [0xE2, 19, 2] + ([4, 116, 121, 112, 101, 0x20, 3] + [6, 112, 97, 103, 101, 105, 100, 0x20, 5])
  {
    var entries := MessageEntries(Invalidate(5), 0);
    assert entries[0] == [4, 116, 121, 112, 101, 0x20, 3] && entries[1] == [6, 112, 97, 103, 101, 105, 100, 0x20, 5];
    assert Concat([entries[1]]) == entries[1] && entries[1..] == [entries[1]];
    assert Concat(entries) == entries[0] + entries[1];
  }

  /** The message each packet of the page protocol is sent as: its number and its page. */
  lemma PacketNumbers(p: Packet, pagesize: nat)
    requires WellFormed(MessageOf(p), pagesize) && pagesize < SIZE_LIMIT
    ensures var entries := MessageEntries(MessageOf(p), pagesize);
            && |entries| >= 2 && entries[1] == Entry(PAGEID, Number(LongToInt(p.page)))
            && (p.msg.LockPage? ==> entries[0] == Entry(TYPE, [0x20, 2]) && entries[2] == Entry(RIGHTS, Number(ShortToInt(p.msg.rights))))
            && (p.msg.Invalidate? ==> entries[0] == Entry(TYPE, [0x20, 3]))
            && (p.msg.InvalidateAck? ==> entries[0] == Entry(TYPE, [0x20, 4]))
            && (p.msg.GivePage? ==> entries[0] == Entry(TYPE, [0x20, 5]) && entries[2] == Entry(RIGHTS, Number(ShortToInt(p.msg.rights))))
  {
  }
}
