/** The messages between the processes and their encoding as Binn objects. The fields are unsigned long and
    unsigned short; they travel as int and short. */
module Messages {
  import opened Bytes
  import opened BinnFormat
  import opened BinnWrite
  import opened BinnContainer
  import opened BinnReader
  import opened BinnIter
  import opened BinnBuilder
  import PageProtocol
  import Cluster

  const MIN_BUFFERSIZE := 512

  datatype Message =
    | Connect(bitness: int, pagesize: int)
    | ConnectAck(bitnessOk: int, pagesizeOk: int, pageCount: int)
    | LockPage(pageId: int, accessRights: int)
    | Invalidate(pageId: int)
    | InvalidateAck(pageId: int)
    | GivePage(pageId: int, accessRights: int, data: Option<bytes>)
    | SyncBarrier(slaveToWait: int)
    | BarrierAck
    | Terminate
    | Unknown(number: int)

  /** The value of the enumeration. */
  function TypeNumber(m: Message): int {
    match m
    case Connect(_, _) => 0
    case ConnectAck(_, _, _) => 1
    case LockPage(_, _) => 2
    case Invalidate(_) => 3
    case InvalidateAck(_) => 4
    case GivePage(_, _, _) => 5
    case SyncBarrier(_) => 6
    case BarrierAck => 7
    case Terminate => 8
    case Unknown(n) => n
  }

  predicate ULong(x: int) {
    0 <= x < TWO64
  }

  predicate UShort(x: int) {
    0 <= x < TWO16
  }

  /** A message that can be put together in memory, for the given page size. */
  predicate WellFormed(m: Message, pagesize: nat) {
    match m
    case Connect(b, p) => ULong(b) && ULong(p)
    case ConnectAck(b, p, c) => UShort(b) && UShort(p) && ULong(c)
    case LockPage(id, rights) => ULong(id) && UShort(rights)
    case Invalidate(id) => ULong(id)
    case InvalidateAck(id) => ULong(id)
    case GivePage(id, rights, data) => ULong(id) && UShort(rights) && data.Some? && |data.value| == pagesize
    case SyncBarrier(n) => UShort(n)
    case BarrierAck => true
    case Terminate => true
    case Unknown(n) => Int32(n) && !(0 <= n <= 8)
  }

  // ---------------------------------------------------------------- C conversions

  /** unsigned long passed as int: the int that is congruent to it */
  function LongToInt(x: int): (i: int)
    requires ULong(x)
    ensures Int32(i) && (x - i) % TWO32 == 0
  {
    Signed32(x % TWO32)
  }

  /** int assigned to unsigned long */
  function IntToLong(i: int): (x: int)
    requires Int32(i)
    ensures ULong(x) && (x - i) % TWO64 == 0
  {
    if i < 0 then i + TWO64 else i
  }

  /** unsigned short passed as short */
  function ShortToInt(x: int): (i: int)
    requires UShort(x)
    ensures -0x8000 <= i < 0x8000 && (x - i) % TWO16 == 0
  {
    if x >= 0x8000 then x - TWO16 else x
  }

  /** short assigned to unsigned short */
  function IntToShort(i: int): (x: int)
    requires -0x8000 <= i < 0x8000
    ensures UShort(x) && (x - i) % TWO16 == 0
  {
    if i < 0 then i + TWO16 else i
  }

  /** An unsigned long survives when it is the sign extension of its low half. */
  predicate Survives(x: int) {
    x < TWO31 || x >= TWO64 - TWO31
  }

  lemma LongThroughInt(x: int)
    requires ULong(x)
    ensures IntToLong(LongToInt(x)) == x <==> Survives(x)
  {
    var high, low := x / TWO32, x % TWO32;
    assert x == high * TWO32 + low;
  }

  // ---------------------------------------------------------------- fields

  function Ascii(s: string): bytes
    requires forall k :: 0 <= k < |s| ==> s[k] as int < 128
  {
    seq(|s|, k requires 0 <= k < |s| => s[k] as int)
  }

  const KEY_TYPE := Ascii("type")
  const KEY_BITNESS := Ascii("bitness")
  const KEY_PAGESIZE := Ascii("pagesize")
  const KEY_PAGECOUNT := Ascii("pagecount")
  const KEY_PAGEID := Ascii("pageid")
  const KEY_RIGHTS := Ascii("rights")
  const KEY_DATA := Ascii("data")
  const KEY_BARRIER := Ascii("barrier")

  lemma KeysAreStrings()
    ensures CString(KEY_TYPE) && CString(KEY_BITNESS) && CString(KEY_PAGESIZE) && CString(KEY_PAGECOUNT)
    ensures CString(KEY_PAGEID) && CString(KEY_RIGHTS) && CString(KEY_DATA) && CString(KEY_BARRIER)
  {
  }

  datatype Field = Field(name: bytes, btype: int, mem: bytes, size: int)

  function IntField(name: bytes, i: int): Field
    requires Int32(i)
  {
    Field(name, BINN_INT32, StoreSigned(i, 4), 0)
  }

  function ShortField(name: bytes, i: int): Field
    requires -0x8000 <= i < 0x8000
  {
    Field(name, BINN_INT16, StoreSigned(i, 2), 0)
  }

  function BlobField(name: bytes, data: bytes): Field {
    Field(name, BINN_BLOB, data, |data|)
  }

  predicate FieldOk(f: Field) {
    && 0 < |f.name| < 16 && CString(f.name)
    && |f.mem| < SIZE_LIMIT
    && (|| (f.btype == BINN_INT32 && |f.mem| == 4 && f.size == 0)
        || (f.btype == BINN_INT16 && |f.mem| == 2 && f.size == 0)
        || (f.btype == BINN_BLOB && f.size == |f.mem|))
  }

  /** What the field is written as. */
  function FieldBytes(f: Field): bytes
    requires FieldOk(f)
  {
    FieldEmits(f);
    Emit(f.btype, Some(f.mem), f.size, true).value
  }

  lemma FieldEmits(f: Field)
    requires FieldOk(f)
    ensures Readable(f.btype, Some(f.mem), f.size) && Emit(f.btype, Some(f.mem), f.size, true).Some?
    ensures Reserved(f.btype, Some(f.mem), f.size, true) <= |f.mem| + 6
  {
    if f.btype != BINN_BLOB { NarrowingLosesNothing(f.btype, f.mem, f.btype); }
  }

  function FieldItem(f: Field): Item
    requires FieldOk(f)
  {
    Item(Name(f.name), FieldBytes(f))
  }

  predicate FieldsOk(fs: seq<Field>) {
    forall k :: 0 <= k < |fs| ==> FieldOk(fs[k])
  }

  function FieldItems(fs: seq<Field>): (items: seq<Item>)
    requires FieldsOk(fs)
    ensures |items| == |fs| && forall k :: 0 <= k < |fs| ==> items[k] == FieldItem(fs[k])
  {
    seq(|fs|, k requires 0 <= k < |fs| => FieldItem(fs[k]))
  }

  /** The fields of a message, in the order they are set. */
  function Arguments(m: Message, pagesize: nat): seq<Field>
    requires WellFormed(m, pagesize)
  {
    match m
    case Connect(b, p) => [IntField(KEY_BITNESS, LongToInt(b)), IntField(KEY_PAGESIZE, LongToInt(p))]
    case ConnectAck(b, p, c) =>
      [ShortField(KEY_BITNESS, ShortToInt(b)), ShortField(KEY_PAGESIZE, ShortToInt(p)),
       IntField(KEY_PAGECOUNT, LongToInt(c))]
    case LockPage(id, rights) => [IntField(KEY_PAGEID, LongToInt(id)), ShortField(KEY_RIGHTS, ShortToInt(rights))]
    case Invalidate(id) => [IntField(KEY_PAGEID, LongToInt(id))]
    case InvalidateAck(id) => [IntField(KEY_PAGEID, LongToInt(id))]
    case GivePage(id, rights, data) =>
      [IntField(KEY_PAGEID, LongToInt(id)), ShortField(KEY_RIGHTS, ShortToInt(rights)), BlobField(KEY_DATA, data.value)]
    case SyncBarrier(n) => [ShortField(KEY_BARRIER, ShortToInt(n))]
    case BarrierAck => []
    case Terminate => []
    case Unknown(_) => []
  }

  function Fields(m: Message, pagesize: nat): seq<Field>
    requires WellFormed(m, pagesize)
  {
    [IntField(KEY_TYPE, TypeNumber(m))] + Arguments(m, pagesize)
  }

  /** No field hides another. */
  ghost predicate DistinctNames(fs: seq<Field>) {
    forall i, j :: 0 <= i < j < |fs| ==> !SameName(fs[i].name, fs[j].name)
  }

  lemma NamesDiffer(a: bytes, b: bytes)
    requires |a| != |b| || (|a| > 0 && Fold(a[0]) != Fold(b[0]))
    ensures !SameName(a, b)
  {
    if |a| == |b| { assert FoldAll(a)[0] != FoldAll(b)[0]; }
  }

  lemma NamesDistinct()
    ensures forall k {:trigger ArgumentNames()[k]} :: 0 <= k < 7 ==> !SameName(KEY_TYPE, ArgumentNames()[k])
    ensures !SameName(KEY_BITNESS, KEY_PAGESIZE) && !SameName(KEY_BITNESS, KEY_PAGECOUNT)
    ensures !SameName(KEY_PAGESIZE, KEY_PAGECOUNT)
    ensures !SameName(KEY_PAGEID, KEY_RIGHTS) && !SameName(KEY_PAGEID, KEY_DATA) && !SameName(KEY_RIGHTS, KEY_DATA)
  {
    forall k | 0 <= k < 7
      ensures !SameName(KEY_TYPE, ArgumentNames()[k])
    {
      NamesDiffer(KEY_TYPE, ArgumentNames()[k]);
    }
    NamesDiffer(KEY_BITNESS, KEY_PAGESIZE);
    NamesDiffer(KEY_BITNESS, KEY_PAGECOUNT);
    NamesDiffer(KEY_PAGESIZE, KEY_PAGECOUNT);
    NamesDiffer(KEY_PAGEID, KEY_RIGHTS);
    NamesDiffer(KEY_PAGEID, KEY_DATA);
    NamesDiffer(KEY_RIGHTS, KEY_DATA);
  }

  function ArgumentNames(): seq<bytes> {
    [KEY_BITNESS, KEY_PAGESIZE, KEY_PAGECOUNT, KEY_PAGEID, KEY_RIGHTS, KEY_DATA, KEY_BARRIER]
  }

  lemma FieldsAreOk(m: Message, pagesize: nat)
    requires WellFormed(m, pagesize) && pagesize < SIZE_LIMIT
    ensures FieldsOk(Fields(m, pagesize))
  {
    KeysAreStrings();
  }

  lemma FieldsDistinct(m: Message, pagesize: nat)
    requires WellFormed(m, pagesize) && pagesize < SIZE_LIMIT
    ensures DistinctNames(Fields(m, pagesize))
  {
    NamesDistinct();
    var names := ArgumentNames();
    var fs, args := Fields(m, pagesize), Arguments(m, pagesize);
    forall i, j | 0 <= i < j < |fs|
      ensures !SameName(fs[i].name, fs[j].name)
    {
      assert fs[j] == args[j - 1];
      if i == 0 {
        assert args[j - 1].name in names;
      } else {
        assert fs[i] == args[i - 1];
      }
    }
  }

  // ---------------------------------------------------------------- reading fields

  /** An integer that was read has the bytes of its type. */
  lemma IntRead(e: bytes)
    requires GetValue(e, 0).Some? && IsInt(GetValue(e, 0).value.btype)
    ensures |GetValue(e, 0).value.data| >= FixedSize(StorageOf(GetValue(e, 0).value.btype))
  {
  }

  /** binn_object_int32 and binn_object_int16: 0 when the key is missing or its value is no such integer. */
  function IntOf(items: seq<Item>, name: bytes, dest: int): (i: int)
    requires IsInt(dest)
    ensures Fits(dest, i)
  {
    match Lookup(items, Name(name))
    case None => 0
    case Some(value) =>
      if !IsInt(value.btype) then 0
      else
        IntRead(items[Find(items, Name(name)).value].val);
        ReadAsIntExact(value, dest);
        match ReadAsInt(value, dest)
        case None => 0
        case Some(mem) =>
          IntFits(dest, mem);
          IntValue(dest, mem)
  }

  /** The blob and the picture types. */
  predicate IsBlob(btype: int) {
    btype == BINN_BLOB || 0xD001 <= btype <= 0xD004
  }

  /** binn_object_blob: no pointer when the key is missing or its value is no blob. */
  function BlobOf(items: seq<Item>, name: bytes): Option<bytes> {
    match Lookup(items, Name(name))
    case None => None
    case Some(value) => if IsBlob(value.btype) then Some(value.data) else None
  }

  /** A value is taken for a page exactly under the type of a blob or of one of the four pictures. */
  lemma PageOnlyFromBlob(items: seq<Item>, name: bytes)
    ensures BlobOf(items, name).Some? <==>
              && Lookup(items, Name(name)).Some?
              && Lookup(items, Name(name)).value.btype in {0xC0, 0xD001, 0xD002, 0xD003, 0xD004}
    ensures BlobOf(items, name).Some? ==> BlobOf(items, name).value == Lookup(items, Name(name)).value.data
  {
  }

  lemma {:induction false} FieldFound(fs: seq<Field>, k: nat)
    requires FieldsOk(fs) && DistinctNames(fs) && k < |fs|
    ensures Lookup(FieldItems(fs), Name(fs[k].name)) == GetValue(FieldBytes(fs[k]), 0)
  {
    FindIs(FieldItems(fs), Name(fs[k].name), k);
  }

  /** An integer field reads back. */
  lemma IntFieldReads(fs: seq<Field>, k: nat)
    requires FieldsOk(fs) && DistinctNames(fs) && k < |fs| && IsInt(fs[k].btype)
    ensures IntOf(FieldItems(fs), fs[k].name, fs[k].btype) == IntValue(fs[k].btype, fs[k].mem)
  {
    var f := fs[k];
    FieldFound(fs, k);
    FieldEmits(f);
    IntFits(f.btype, f.mem);
    StoreThenReadInt(f.btype, f.mem, true, f.btype);
  }

  /** A blob reads back. */
  lemma BlobFieldReads(fs: seq<Field>, k: nat)
    requires FieldsOk(fs) && DistinctNames(fs) && k < |fs| && fs[k].btype == BINN_BLOB
    ensures BlobOf(FieldItems(fs), fs[k].name) == Some(fs[k].mem)
  {
    var f := fs[k];
    FieldFound(fs, k);
    FieldEmits(f);
    WrittenValue(f.btype, Some(f.mem), f.size, true);
    assert f.mem[..f.size] == f.mem;
  }

  // ---------------------------------------------------------------- decoding

  function LongOf(items: seq<Item>, name: bytes): int {
    IntToLong(IntOf(items, name, BINN_INT32))
  }

  function ShortOf(items: seq<Item>, name: bytes): int {
    IntToShort(IntOf(items, name, BINN_INT16))
  }

  /** The message an object is read as; nothing for an unknown type. */
  function Decode(items: seq<Item>): Option<Message> {
    DecodeAs(IntOf(items, KEY_TYPE, BINN_INT32), items)
  }

  function DecodeAs(t: int, items: seq<Item>): Option<Message> {
    if t == 0 then Some(Connect(LongOf(items, KEY_BITNESS), LongOf(items, KEY_PAGESIZE)))
    else if t == 1 then
      Some(ConnectAck(ShortOf(items, KEY_BITNESS), ShortOf(items, KEY_PAGESIZE), LongOf(items, KEY_PAGECOUNT)))
    else if t == 2 then Some(LockPage(LongOf(items, KEY_PAGEID), ShortOf(items, KEY_RIGHTS)))
    else if t == 3 then Some(Invalidate(LongOf(items, KEY_PAGEID)))
    else if t == 4 then Some(InvalidateAck(LongOf(items, KEY_PAGEID)))
    else if t == 5 then
      Some(GivePage(LongOf(items, KEY_PAGEID), ShortOf(items, KEY_RIGHTS), BlobOf(items, KEY_DATA)))
    else if t == 6 then Some(SyncBarrier(ShortOf(items, KEY_BARRIER)))
    else if t == 7 then Some(BarrierAck)
    else if t == 8 then Some(Terminate)
    else None
  }

  /** What arrives of a message: every unsigned long is cut to an int. */
  function Received(m: Message, pagesize: nat): Message
    requires WellFormed(m, pagesize)
  {
    match m
    case Connect(b, p) => Connect(IntToLong(LongToInt(b)), IntToLong(LongToInt(p)))
    case ConnectAck(b, p, c) => ConnectAck(b, p, IntToLong(LongToInt(c)))
    case LockPage(id, rights) => LockPage(IntToLong(LongToInt(id)), rights)
    case Invalidate(id) => Invalidate(IntToLong(LongToInt(id)))
    case InvalidateAck(id) => InvalidateAck(IntToLong(LongToInt(id)))
    case GivePage(id, rights, data) => GivePage(IntToLong(LongToInt(id)), rights, data)
    case _ => m
  }

  /** Every unsigned long of the message is within the range of an int. */
  predicate Carried(m: Message) {
    match m
    case Connect(b, p) => Survives(b) && Survives(p)
    case ConnectAck(_, _, c) => Survives(c)
    case LockPage(id, _) => Survives(id)
    case Invalidate(id) => Survives(id)
    case InvalidateAck(id) => Survives(id)
    case GivePage(id, _, _) => Survives(id)
    case _ => true
  }

  lemma LongFieldReads(fs: seq<Field>, k: nat, name: bytes, x: int)
    requires FieldsOk(fs) && DistinctNames(fs) && k < |fs| && ULong(x) && fs[k] == IntField(name, LongToInt(x))
    ensures LongOf(FieldItems(fs), name) == IntToLong(LongToInt(x))
  {
    IntFieldReads(fs, k);
    assert fs[k].mem[..4] == fs[k].mem;
  }

  lemma ShortFieldReads(fs: seq<Field>, k: nat, name: bytes, x: int)
    requires FieldsOk(fs) && DistinctNames(fs) && k < |fs| && UShort(x) && fs[k] == ShortField(name, ShortToInt(x))
    ensures ShortOf(FieldItems(fs), name) == x
  {
    IntFieldReads(fs, k);
    assert fs[k].mem[..2] == fs[k].mem;
  }

  lemma TypeReads(m: Message, pagesize: nat)
    requires WellFormed(m, pagesize) && pagesize < SIZE_LIMIT
    ensures FieldsOk(Fields(m, pagesize)) && DistinctNames(Fields(m, pagesize))
    ensures IntOf(FieldItems(Fields(m, pagesize)), KEY_TYPE, BINN_INT32) == TypeNumber(m)
  {
    FieldsAreOk(m, pagesize);
    FieldsDistinct(m, pagesize);
    var fs := Fields(m, pagesize);
    IntFieldReads(fs, 0);
    assert fs[0].mem[..4] == fs[0].mem;
  }

  lemma NoBlob(fs: seq<Field>)
    requires FieldsOk(fs) && |fs| == 3 && fs[0].name == KEY_TYPE && fs[1].name == KEY_PAGEID && fs[2].name == KEY_RIGHTS
    ensures BlobOf(FieldItems(fs), KEY_DATA) == None
  {
    NamesDistinct();
    assert ArgumentNames()[5] == KEY_DATA;
    assert Find(FieldItems(fs), Name(KEY_DATA)).None?;
  }

  /** Decoding what was encoded gives the message as it is received; a message of no known type is refused. */
  lemma RoundTrip(m: Message, pagesize: nat)
    requires WellFormed(m, pagesize) && pagesize < SIZE_LIMIT
    ensures FieldsOk(Fields(m, pagesize))
    ensures Decode(FieldItems(Fields(m, pagesize))) == if m.Unknown? then None else Some(Received(m, pagesize))
  {
    TypeReads(m, pagesize);
    var fs := Fields(m, pagesize);
    match m
    case Connect(b, p) =>
      LongFieldReads(fs, 1, KEY_BITNESS, b);
      LongFieldReads(fs, 2, KEY_PAGESIZE, p);
    case ConnectAck(b, p, c) =>
      ShortFieldReads(fs, 1, KEY_BITNESS, b);
      ShortFieldReads(fs, 2, KEY_PAGESIZE, p);
      LongFieldReads(fs, 3, KEY_PAGECOUNT, c);
    case LockPage(id, rights) =>
      LongFieldReads(fs, 1, KEY_PAGEID, id);
      ShortFieldReads(fs, 2, KEY_RIGHTS, rights);
    case Invalidate(id) =>
      LongFieldReads(fs, 1, KEY_PAGEID, id);
    case InvalidateAck(id) =>
      LongFieldReads(fs, 1, KEY_PAGEID, id);
    case GivePage(id, rights, data) =>
      LongFieldReads(fs, 1, KEY_PAGEID, id);
      ShortFieldReads(fs, 2, KEY_RIGHTS, rights);
      BlobFieldReads(fs, 3);
    case SyncBarrier(n) =>
      ShortFieldReads(fs, 1, KEY_BARRIER, n);
    case BarrierAck =>
    case Terminate =>
    case Unknown(n) =>
  }

  /** The same message arrives exactly when its unsigned longs are within the range of an int. */
  lemma RoundTripIsExact(m: Message, pagesize: nat)
    requires WellFormed(m, pagesize)
    ensures Received(m, pagesize) == m <==> Carried(m)
  {
    match m
    case Connect(b, p) => LongThroughInt(b); LongThroughInt(p);
    case ConnectAck(_, _, c) => LongThroughInt(c);
    case LockPage(id, _) => LongThroughInt(id);
    case Invalidate(id) => LongThroughInt(id);
    case InvalidateAck(id) => LongThroughInt(id);
    case GivePage(id, _, _) => LongThroughInt(id);
    case _ =>
  }

  /** A page number of 2^31 arrives as another number. */
  lemma LargePageIsMistaken()
    ensures Received(Invalidate(TWO31), 0) == Invalidate(TWO64 - TWO31)
  {
  }

  // ---------------------------------------------------------------- sending and receiving

  /** The items of an object that is being written on the heap, with integers compressed. */
  ghost function Built(obj: Binn): Option<seq<Item>>
    reads obj, obj.pbuf
  {
    if obj.Valid() && obj.btype == BINN_OBJECT && !obj.disableIntCompression && !obj.preAllocated then Some(obj.items)
    else None
  }

  /** The bytes a field takes and the space it needs. */
  function SpaceFor(f: Field): (n: nat)
    requires FieldOk(f)
    ensures n <= 22 + |f.mem|
  {
    FieldEmits(f);
    1 + |f.name| + Reserved(f.btype, Some(f.mem), f.size, true)
  }

  /** One binn_object_set of a message, whose result the source ignores: the field is set exactly when there is
      the capacity for it. */
  method SetField(obj: Binn, f: Field) returns (ok: bool)
    requires obj.Valid() && obj.btype == BINN_OBJECT && !obj.disableIntCompression && !obj.preAllocated
    requires FieldOk(f) && Find(obj.items, Name(f.name)) == None
    requires obj.usedSize + 300 + |f.mem| <= SIZE_LIMIT
    modifies obj`pbuf, obj`usedSize, obj`dirty, obj`count, obj`items, obj.pbuf
    ensures obj.Valid() && obj.Capacity() == old(obj.Capacity()) && (obj.pbuf == old(obj.pbuf) || fresh(obj.pbuf))
    ensures ok == (old(obj.usedSize) + SpaceFor(f) <= obj.Capacity())
    ensures obj.items == if ok then old(obj.items) + [FieldItem(f)] else old(obj.items)
    ensures obj.usedSize <= old(obj.usedSize) + if ok then SpaceFor(f) else 0
  {
    FieldEmits(f);
    ghost var e := Emit(f.btype, Some(f.mem), f.size, true);
    ghost var reserved := Reserved(f.btype, Some(f.mem), f.size, true);
    PlannedValue(true, f.btype, Some(f.mem), f.size, e, reserved);
    ok := obj.ObjectSet(Some(f.name), f.btype, Some(f.mem), f.size, e, reserved);
    if !ok { assert |obj.pbuf[..obj.usedSize]| == |old(obj.pbuf[..obj.usedSize])|; }
  }

  /** Field k of a message. */
  method SetNext(obj: Binn, f: Field, ghost fs: seq<Field>, ghost k: nat) returns (ok: bool)
    requires FieldsOk(fs) && DistinctNames(fs) && k < |fs| && f == fs[k] && Built(obj) == Some(FieldItems(fs[..k]))
    requires obj.usedSize + 300 + |f.mem| <= SIZE_LIMIT
    modifies obj`pbuf, obj`usedSize, obj`dirty, obj`count, obj`items, obj.pbuf
    ensures ok ==> Built(obj) == Some(FieldItems(fs[..k + 1]))
    ensures !ok ==> Built(obj) == Some(FieldItems(fs[..k]))
    ensures obj.Capacity() == old(obj.Capacity()) && (obj.pbuf == old(obj.pbuf) || fresh(obj.pbuf))
    ensures ok == (old(obj.usedSize) + SpaceFor(f) <= obj.Capacity())
    ensures ok && k + 1 == |fs| ==> Built(obj) == Some(FieldItems(fs))
    ensures obj.usedSize <= old(obj.usedSize) + if ok then SpaceFor(f) else 0
  {
    NotYetSet(fs, k);
    assert fs[..k + 1] == fs[..k] + [f];
    ok := SetField(obj, f);
    if ok { assert obj.items == FieldItems(fs[..k + 1]); }
    if k + 1 == |fs| { assert fs[..k + 1] == fs; }
  }

  /** A field for which there is the capacity. */
  method SetSmall(obj: Binn, f: Field, ghost fs: seq<Field>, ghost k: nat)
    requires FieldsOk(fs) && DistinctNames(fs) && k < |fs| && f == fs[k] && Built(obj) == Some(FieldItems(fs[..k]))
    requires obj.usedSize + 300 + |f.mem| <= SIZE_LIMIT && obj.usedSize + 22 + |f.mem| <= obj.Capacity()
    modifies obj`pbuf, obj`usedSize, obj`dirty, obj`count, obj`items, obj.pbuf
    ensures Built(obj) == Some(FieldItems(fs[..k + 1])) && (k + 1 == |fs| ==> Built(obj) == Some(FieldItems(fs)))
    ensures obj.Capacity() == old(obj.Capacity()) && (obj.pbuf == old(obj.pbuf) || fresh(obj.pbuf))
    ensures obj.usedSize <= old(obj.usedSize) + 22 + |f.mem|
  {
    var ok := SetNext(obj, f, fs, k);
  }

  lemma NotYetSet(fs: seq<Field>, k: nat)
    requires FieldsOk(fs) && DistinctNames(fs) && k < |fs|
    ensures Find(FieldItems(fs[..k]), Name(fs[k].name)) == None
  {
    assert forall j :: 0 <= j < k ==> !SameName(fs[j].name, fs[k].name);
  }

  predicate AboutPage(m: Message) {
    m.LockPage? || m.Invalidate? || m.InvalidateAck? || m.GivePage?
  }

  /** The page of a GIVEPAGE can be put behind its other fields. */
  ghost predicate PageFits(m: Message, pagesize: nat, capacity: nat)
    requires WellFormed(m, pagesize) && m.GivePage? && FieldsOk(Fields(m, pagesize))
  {
    Used(BINN_OBJECT, FieldItems(Fields(m, pagesize)[..3])) + SpaceFor(Fields(m, pagesize)[3]) <= capacity
  }

  /** The fields that are set: all, but for a page for which there is no memory. */
  ghost function Kept(m: Message, pagesize: nat, capacity: nat): (fs: seq<Field>)
    requires WellFormed(m, pagesize) && FieldsOk(Fields(m, pagesize))
    ensures FieldsOk(fs)
  {
    if m.GivePage? && !PageFits(m, pagesize, capacity) then Fields(m, pagesize)[..3] else Fields(m, pagesize)
  }

  /** The second switch of dsm_send_msg, for messages about a page: the fields behind the type. */
  method SetPageArguments(obj: Binn, m: Message, pagesize: nat)
    requires WellFormed(m, pagesize) && AboutPage(m) && pagesize + 1024 <= SIZE_LIMIT
    requires FieldsOk(Fields(m, pagesize)) && DistinctNames(Fields(m, pagesize))
    requires Built(obj) == Some(FieldItems(Fields(m, pagesize)[..1])) && obj.usedSize <= 64
    requires obj.Capacity() >= CHUNK_SIZE
    modifies obj`pbuf, obj`usedSize, obj`dirty, obj`count, obj`items, obj.pbuf
    ensures obj.pbuf == old(obj.pbuf) || fresh(obj.pbuf)
    ensures Built(obj) == Some(FieldItems(Kept(m, pagesize, old(obj.Capacity()))))
    ensures obj.usedSize <= MIN_BUFFERSIZE + if m.GivePage? then pagesize else 0
  {
    ghost var fs := Fields(m, pagesize);
    SetSmall(obj, IntField(KEY_PAGEID, LongToInt(m.pageId)), fs, 1);
    if m.LockPage? || m.GivePage? {
      SetSmall(obj, ShortField(KEY_RIGHTS, ShortToInt(m.accessRights)), fs, 2);
    }
    if m.GivePage? { SetPageData(obj, m, pagesize); }
  }

  /** The page itself, if there is memory for it. */
  method SetPageData(obj: Binn, m: Message, pagesize: nat)
    requires WellFormed(m, pagesize) && m.GivePage? && pagesize + 1024 <= SIZE_LIMIT
    requires FieldsOk(Fields(m, pagesize)) && DistinctNames(Fields(m, pagesize))
    requires Built(obj) == Some(FieldItems(Fields(m, pagesize)[..3])) && obj.usedSize <= 128
    modifies obj`pbuf, obj`usedSize, obj`dirty, obj`count, obj`items, obj.pbuf
    ensures Built(obj) == Some(FieldItems(Kept(m, pagesize, old(obj.Capacity()))))
    ensures obj.pbuf == old(obj.pbuf) || fresh(obj.pbuf)
    ensures obj.usedSize <= MIN_BUFFERSIZE + pagesize
  {
    BuiltUses(obj);
    var ok := SetNext(obj, BlobField(KEY_DATA, m.data.value), Fields(m, pagesize), 3);
  }

  lemma BuiltUses(obj: Binn)
    requires Built(obj).Some?
    ensures obj.usedSize == Used(BINN_OBJECT, Built(obj).value)
  {
  }

  method SetConnectArguments(obj: Binn, m: Message, pagesize: nat)
    requires WellFormed(m, pagesize) && (m.Connect? || m.ConnectAck?) && pagesize + 1024 <= SIZE_LIMIT
    requires FieldsOk(Fields(m, pagesize)) && DistinctNames(Fields(m, pagesize))
    requires Built(obj) == Some(FieldItems(Fields(m, pagesize)[..1])) && obj.usedSize <= 64
    requires obj.Capacity() >= CHUNK_SIZE
    modifies obj`pbuf, obj`usedSize, obj`dirty, obj`count, obj`items, obj.pbuf
    ensures obj.pbuf == old(obj.pbuf) || fresh(obj.pbuf)
    ensures Built(obj) == Some(FieldItems(Fields(m, pagesize))) && obj.usedSize <= MIN_BUFFERSIZE
  {
    ghost var fs := Fields(m, pagesize);
    if m.Connect? {
      SetSmall(obj, IntField(KEY_BITNESS, LongToInt(m.bitness)), fs, 1);
      SetSmall(obj, IntField(KEY_PAGESIZE, LongToInt(m.pagesize)), fs, 2);
    } else {
      SetSmall(obj, ShortField(KEY_BITNESS, ShortToInt(m.bitnessOk)), fs, 1);
      SetSmall(obj, ShortField(KEY_PAGESIZE, ShortToInt(m.pagesizeOk)), fs, 2);
      SetSmall(obj, IntField(KEY_PAGECOUNT, LongToInt(m.pageCount)), fs, 3);
    }
  }

  /** And for the others. */
  method SetOtherArguments(obj: Binn, m: Message, pagesize: nat)
    requires WellFormed(m, pagesize) && !m.Unknown? && !AboutPage(m) && pagesize + 1024 <= SIZE_LIMIT
    requires FieldsOk(Fields(m, pagesize)) && DistinctNames(Fields(m, pagesize))
    requires Built(obj) == Some(FieldItems(Fields(m, pagesize)[..1])) && obj.usedSize <= 64
    requires obj.Capacity() >= CHUNK_SIZE
    modifies obj`pbuf, obj`usedSize, obj`dirty, obj`count, obj`items, obj.pbuf
    ensures obj.pbuf == old(obj.pbuf) || fresh(obj.pbuf)
    ensures Built(obj) == Some(FieldItems(Fields(m, pagesize))) && obj.usedSize <= MIN_BUFFERSIZE
  {
    ghost var fs := Fields(m, pagesize);
    if m.Connect? || m.ConnectAck? {
      SetConnectArguments(obj, m, pagesize);
    } else if m.SyncBarrier? {
      SetSmall(obj, ShortField(KEY_BARRIER, ShortToInt(m.slaveToWait)), fs, 1);
    } else {
      assert fs[..1] == fs;
    }
  }

  /** All fields of a message. */
  method SetFields(obj: Binn, m: Message, pagesize: nat)
    requires WellFormed(m, pagesize) && !m.Unknown? && pagesize + 1024 <= SIZE_LIMIT
    requires FieldsOk(Fields(m, pagesize))
    requires Built(obj) == Some([]) && obj.usedSize == MAX_BINN_HEADER
    requires obj.Capacity() >= CHUNK_SIZE
    modifies obj`pbuf, obj`usedSize, obj`dirty, obj`count, obj`items, obj.pbuf
    ensures obj.pbuf == old(obj.pbuf) || fresh(obj.pbuf)
    ensures Built(obj) == Some(FieldItems(Kept(m, pagesize, old(obj.Capacity()))))
    ensures obj.usedSize <= MIN_BUFFERSIZE + if m.GivePage? then pagesize else 0
  {
    FieldsDistinct(m, pagesize);
    ghost var fs := Fields(m, pagesize);
    assert FieldItems(fs[..0]) == [];
    SetSmall(obj, IntField(KEY_TYPE, TypeNumber(m)), fs, 0);
    if AboutPage(m) {
      SetPageArguments(obj, m, pagesize);
    } else {
      SetOtherArguments(obj, m, pagesize);
    }
  }

  /** What dsm_send puts on a connection: the length of the payload and the payload. */
  function Frame(payload: bytes): bytes
    requires |payload| < TWO32
  {
    Bytes32(|payload|) + payload
  }

  /** b is the serialized object of these items, and nothing else. */
  ghost predicate IsObject(b: bytes, items: seq<Item>) {
    Serialized(b, BINN_OBJECT, items) && b == Serialize(BINN_OBJECT, items)
  }

  /** The object of a message as binn_ptr and binn_size give it: nothing at all where binn_object found no
      memory, as a null pointer and a size of 0 are passed on then. */
  method BuildMsg(m: Message, pagesize: nat, heapLimit: nat) returns (payload: bytes)
    requires WellFormed(m, pagesize) && !m.Unknown? && pagesize + 1024 <= SIZE_LIMIT
    ensures FieldsOk(Fields(m, pagesize))
    ensures payload == [] <==> heapLimit < CHUNK_SIZE
    ensures heapLimit >= CHUNK_SIZE ==>
              IsObject(payload, FieldItems(Kept(m, pagesize, Limit(CHUNK_SIZE, false, heapLimit))))
    ensures |payload| <= MIN_BUFFERSIZE + if m.GivePage? then pagesize else 0
  {
    FieldsAreOk(m, pagesize);
    var obj := Binn.Create(BINN_OBJECT, 0, null, heapLimit);
    if obj == null { return []; }
    SetFields(obj, m, pagesize);
    var p := obj.Ptr();
    payload := obj.pbuf[..obj.usedSize][p..];
    Opened(payload, BINN_OBJECT, FieldItems(Kept(m, pagesize, Limit(CHUNK_SIZE, false, heapLimit))));
  }

  /** dsm_send_msg: what it puts on the connection, and whether it reports success. An unknown type sends
      nothing. Without memory for the object the frame is empty, which dsm_send takes for a lost connection.
      Without memory for its page a GIVEPAGE is sent without it, as the source ignores the results of its
      sets. */
  method SendMsg(m: Message, pagesize: nat, heapLimit: nat) returns (ok: bool, sent: bytes, ghost payload: bytes)
    requires WellFormed(m, pagesize) && pagesize + 1024 <= SIZE_LIMIT
    ensures FieldsOk(Fields(m, pagesize))
    ensures ok <==> !m.Unknown? && heapLimit >= CHUNK_SIZE
    ensures m.Unknown? ==> sent == []
    ensures !m.Unknown? ==> |payload| <= MIN_BUFFERSIZE + (if m.GivePage? then pagesize else 0) && sent == Frame(payload)
    ensures !m.Unknown? && heapLimit < CHUNK_SIZE ==> payload == []
    ensures ok ==> payload != [] &&
                   IsObject(payload, FieldItems(Kept(m, pagesize, Limit(CHUNK_SIZE, false, heapLimit))))
  {
    FieldsAreOk(m, pagesize);
    if m.Unknown? { return false, [], []; }
    var built := BuildMsg(m, pagesize, heapLimit);
    return built != [], Frame(built), built;
  }

  /** The block shows an object with items: only then a getter looks into it. */
  predicate HasFields(b: bytes) {
    match ParseHeader(b, 0)
    case None => false
    case Some(h) => h.btype == BINN_OBJECT && h.count > 0
  }

  /** binn_object_int32 and binn_object_int16 on what binn_open returned. */
  method ObjectInt(obj: Option<bytes>, name: bytes, dest: int, ghost items: seq<Item>) returns (i: int)
    requires IsInt(dest) && CString(name)
    requires obj.Some? && HasFields(obj.value) ==> Serialized(obj.value, BINN_OBJECT, items)
    ensures i == if obj.None? || !HasFields(obj.value) then 0 else IntOf(items, name, dest)
  {
    if obj.None? || !HasFields(obj.value) { return 0; }
    var value := ObjectGetValue(obj.value, name, BINN_OBJECT, items);
    if value.None? || !IsInt(value.value.btype) { return 0; }
    IntRead(items[Find(items, Name(name)).value].val);
    ReadAsIntExact(value.value, dest);
    var mem := ReadAsInt(value.value, dest);
    if mem.None? { return 0; }
    return IntValue(dest, mem.value);
  }

  /** binn_object_blob. */
  method ObjectBlob(obj: bytes, name: bytes, ghost items: seq<Item>) returns (data: Option<bytes>)
    requires CString(name) && Serialized(obj, BINN_OBJECT, items)
    ensures data == BlobOf(items, name)
  {
    var value := ObjectGetValue(obj, name, BINN_OBJECT, items);
    return if value.Some? && IsBlob(value.value.btype) then Some(value.value.data) else None;
  }

  /** An unsigned long field. */
  method ReadLong(obj: Option<bytes>, name: bytes, ghost items: seq<Item>) returns (x: int)
    requires CString(name)
    requires obj.Some? && HasFields(obj.value) ==> Serialized(obj.value, BINN_OBJECT, items)
    ensures x == if obj.None? || !HasFields(obj.value) then 0 else LongOf(items, name)
  {
    var i := ObjectInt(obj, name, BINN_INT32, items);
    return IntToLong(i);
  }

  /** An unsigned short field. */
  method ReadShort(obj: bytes, name: bytes, ghost items: seq<Item>) returns (x: int)
    requires CString(name) && Serialized(obj, BINN_OBJECT, items) && HasFields(obj)
    ensures x == ShortOf(items, name)
  {
    var i := ObjectInt(Some(obj), name, BINN_INT16, items);
    return IntToShort(i);
  }

  /** The switch of dsm_receive_msg, on an object of some type. */
  method ReadArguments(obj: bytes, t: int, ghost items: seq<Item>) returns (r: Option<Message>)
    requires Serialized(obj, BINN_OBJECT, items) && HasFields(obj) && t != 0
    ensures r == DecodeAs(t, items)
  {
    KeysAreStrings();
    var id;
    if 2 <= t <= 5 { id := ReadLong(Some(obj), KEY_PAGEID, items); }
    if t == 1 {
      var bitness := ReadShort(obj, KEY_BITNESS, items);
      var pagesize := ReadShort(obj, KEY_PAGESIZE, items);
      var count := ReadLong(Some(obj), KEY_PAGECOUNT, items);
      return Some(ConnectAck(bitness, pagesize, count));
    } else if t == 2 {
      var rights := ReadShort(obj, KEY_RIGHTS, items);
      return Some(LockPage(id, rights));
    } else if t == 3 {
      return Some(Invalidate(id));
    } else if t == 4 {
      return Some(InvalidateAck(id));
    } else if t == 5 {
      var rights := ReadShort(obj, KEY_RIGHTS, items);
      var data := ObjectBlob(obj, KEY_DATA, items);
      return Some(GivePage(id, rights, data));
    } else if t == 6 {
      var n := ReadShort(obj, KEY_BARRIER, items);
      return Some(SyncBarrier(n));
    } else if t == 7 {
      return Some(BarrierAck);
    } else if t == 8 {
      return Some(Terminate);
    }
    return None;
  }

  /** What dsm_receive_msg makes of a block: a message, or a refusal, upon which the listener closes the connection; OffBlock where the code goes on with
      what it finds outside the block or takes the block's bytes for pointers. */
  datatype Receipt = Got(msg: Message) | Refused | OffBlock

  function ReceiptOf(m: Option<Message>): Receipt {
    match m
    case None => Refused
    case Some(msg) => Got(msg)
  }

  /** dsm_receive_msg on the buffer it allocates, of at least 512 bytes, for what is received. An object is
      decoded. Anything else that is no object with items leaves every field 0 and is taken for a CONNECT
      message, unless the check leads outside the block or takes the block for a structure. */
  method ReceiveMsg(buffer: bytes, ghost items: seq<Item>) returns (r: Receipt)
    requires |buffer| >= MIN_BUFFERSIZE
    requires HasFields(buffer) ==> Serialized(buffer, BINN_OBJECT, items)
    ensures HasFields(buffer) ==> r == ReceiptOf(Decode(items))
    ensures !HasFields(buffer) ==>
              r == if ValidityOf(buffer).Valid? || ValidityOf(buffer).Invalid? then Got(Connect(0, 0)) else OffBlock
  {
    KeysAreStrings();
    ghost var fields := HasFields(buffer);
    if fields { BuiltIsValid(buffer, BINN_OBJECT, items); }
    var valid := IsValid(buffer);
    if valid.Structure? || valid.OutOfBlock? { return OffBlock; }
    var obj := if valid.Valid? then Some(buffer) else None;
    var t := ObjectInt(obj, KEY_TYPE, BINN_INT32, items);
    if t == 0 {
      var bitness := ReadLong(obj, KEY_BITNESS, items);
      var pagesize := ReadLong(obj, KEY_PAGESIZE, items);
      return Got(Connect(bitness, pagesize));
    }
    var m := ReadArguments(buffer, t, items);
    r := ReceiptOf(m);
  }

  // ---------------------------------------------------------------- from one process to another

  /** What dsm_receive makes of a frame: the payload at the front of the buffer, an end of the process over a
      payload larger than the buffer, or a connection taken for lost, as a recv of 0 bytes returns 0. */
  datatype Reception = Filled(buffer: bytes) | TooBig | Lost

  /** dsm_receive, of one whole frame into a buffer that holds some bytes already. */
  method ReceiveFrame(frame: bytes, memory: bytes) returns (r: Reception)
    requires |frame| >= 4 && |frame| - 4 == Word32(frame, 0)
    ensures r == if |frame| - 4 > |memory| then TooBig
                 else if |frame| == 4 then Lost
                 else Filled(frame[4..] + memory[|frame| - 4..])
  {
    var size := Word32(frame, 0);
    if size > |memory| { return TooBig; }
    var received := frame[4..4 + size];
    if |received| == 0 { return Lost; }
    return Filled(received + memory[size..]);
  }

  function WithoutPage(m: Message): Message {
    match m
    case GivePage(id, rights, _) => GivePage(id, rights, None)
    case _ => m
  }

  /** What arrives of a message, for the sender's memory: a GIVEPAGE for whose page there was none has no page. */
  ghost function Arrived(m: Message, pagesize: nat, heapLimit: nat): Message
    requires WellFormed(m, pagesize) && FieldsOk(Fields(m, pagesize))
  {
    if m.GivePage? && !PageFits(m, pagesize, Limit(CHUNK_SIZE, false, heapLimit)) then
      WithoutPage(Received(m, pagesize))
    else Received(m, pagesize)
  }

  /** The fields of a GIVEPAGE without its page. */
  lemma PagelessFields(m: Message, pagesize: nat)
    requires WellFormed(m, pagesize) && pagesize < SIZE_LIMIT && m.GivePage?
    ensures var fs := Fields(m, pagesize)[..3];
            && FieldsOk(fs) && DistinctNames(fs)
            && fs[0] == IntField(KEY_TYPE, 5) && fs[1] == IntField(KEY_PAGEID, LongToInt(m.pageId))
            && fs[2] == ShortField(KEY_RIGHTS, ShortToInt(m.accessRights))
  {
    FieldsAreOk(m, pagesize);
    FieldsDistinct(m, pagesize);
  }

  lemma PagelessReads(m: Message, pagesize: nat)
    requires WellFormed(m, pagesize) && pagesize < SIZE_LIMIT && m.GivePage?
    ensures FieldsOk(Fields(m, pagesize)[..3])
    ensures Decode(FieldItems(Fields(m, pagesize)[..3])) == Some(WithoutPage(Received(m, pagesize)))
  {
    PagelessFields(m, pagesize);
    var fs := Fields(m, pagesize)[..3];
    IntFieldReads(fs, 0);
    assert fs[0].mem[..4] == fs[0].mem;
    LongFieldReads(fs, 1, KEY_PAGEID, m.pageId);
    ShortFieldReads(fs, 2, KEY_RIGHTS, m.accessRights);
    NoBlob(fs);
  }

  lemma KeptReads(m: Message, pagesize: nat, heapLimit: nat)
    requires WellFormed(m, pagesize) && pagesize < SIZE_LIMIT && !m.Unknown?
    ensures FieldsOk(Fields(m, pagesize))
    ensures Decode(FieldItems(Kept(m, pagesize, Limit(CHUNK_SIZE, false, heapLimit)))) == Some(Arrived(m, pagesize, heapLimit))
  {
    RoundTrip(m, pagesize);
    if m.GivePage? { PagelessReads(m, pagesize); }
  }

  /** What a call of dsm_send_msg comes to at the other end: nothing is seen of it; or the receiver closes the
      connection; or it ends; or it makes something of what it received. */
  datatype Effect = Unseen | Closes | Ends | Receives(receipt: Receipt)

  /** A message sent by one process is received by the other, whatever bytes its buffer held before, and never
      too big for it: unseen when its type is unknown; the end of the connection when the sender had no memory
      for it; and otherwise the message, with its unsigned longs cut to an int. */
  method Transfer(m: Message, pagesize: nat, heapLimit: nat, memory: bytes) returns (r: Effect)
    requires WellFormed(m, pagesize) && pagesize + 1024 <= SIZE_LIMIT
    requires |memory| >= 512 + if m.GivePage? then pagesize else 0
    ensures FieldsOk(Fields(m, pagesize))
    ensures r == if m.Unknown? then Unseen
                 else if heapLimit < 256 then Closes
                 else Receives(Got(Arrived(m, pagesize, heapLimit)))
  {
    var ok, sent, payload := SendMsg(m, pagesize, heapLimit);
    if sent == [] { return Unseen; }
    FrameParts(payload);
    var reception := ReceiveFrame(sent, memory);
    if reception.TooBig? { return Ends; }
    if reception.Lost? { return Closes; }
    ghost var items := FieldItems(Kept(m, pagesize, Limit(CHUNK_SIZE, false, heapLimit)));
    LongerBlock(payload, memory[|payload|..], BINN_OBJECT, items);
    Opened(reception.buffer, BINN_OBJECT, items);
    KeptReads(m, pagesize, heapLimit);
    var receipt := ReceiveMsg(reception.buffer, items);
    r := Receives(receipt);
  }

  lemma FrameParts(payload: bytes)
    requires |payload| < TWO32
    ensures |Frame(payload)| == 4 + |payload| && Word32(Frame(payload), 0) == |payload| && Frame(payload)[4..] == payload
  {
    var f := Frame(payload);
    assert f[..4] == Bytes32(|payload|);
    assert f[0] == f[..4][0] && f[1] == f[..4][1] && f[2] == f[..4][2] && f[3] == f[..4][3];
  }

  // ---------------------------------------------------------------- the page protocol's messages

  /** The message a packet of the protocol is sent as. */
  function MessageOf(p: Cluster.Packet): Message {
    match p.msg
    case LockPage(rights) => LockPage(p.page, rights)
    case Invalidate => Invalidate(p.page)
    case InvalidateAck => InvalidateAck(p.page)
    case GivePage(rights, data) => GivePage(p.page, rights, Some(data))
  }

  /** The page number a handler is given, for the messages that are about a page. */
  function PageNumber(m: Message): Option<int> {
    match m
    case LockPage(id, _) => Some(id)
    case Invalidate(id) => Some(id)
    case InvalidateAck(id) => Some(id)
    case GivePage(id, _, _) => Some(id)
    case _ => None
  }

  /** The entry of the page table a handler works on: get_page_from_id takes an unsigned int. The address of the
      page's bytes is computed from the number as it is. */
  function PageEntry(id: int): int {
    id % TWO32
  }

  /** The message as the handler of a packet: none without its page. */
  function PacketOf(m: Message): Option<Cluster.Packet> {
    match m
    case LockPage(id, rights) => if id < 0 then None else Some(Cluster.Packet(id, PageProtocol.LockPage(rights)))
    case Invalidate(id) => if id < 0 then None else Some(Cluster.Packet(id, PageProtocol.Invalidate))
    case InvalidateAck(id) => if id < 0 then None else Some(Cluster.Packet(id, PageProtocol.InvalidateAck))
    case GivePage(id, rights, data) =>
      if id < 0 || data.None? then None else Some(Cluster.Packet(id, PageProtocol.GivePage(rights, data.value)))
    case _ => None
  }

  lemma LowHalfSurvives(x: int)
    requires ULong(x)
    ensures PageEntry(IntToLong(LongToInt(x))) == PageEntry(x)
    ensures PageEntry(x) == x <==> x < TWO32
  {
    var high, low := x / TWO32, x % TWO32;
    assert x == high * TWO32 + low;
  }

  lemma PacketReceived(p: Cluster.Packet, pagesize: nat)
    requires WellFormed(MessageOf(p), pagesize)
    ensures PacketOf(Received(MessageOf(p), pagesize)) == Some(p) <==> Survives(p.page)
    ensures p.msg.GivePage? ==> PacketOf(WithoutPage(Received(MessageOf(p), pagesize))) == None
  {
    LongThroughInt(p.page);
  }

  lemma PacketArrives(p: Cluster.Packet, pagesize: nat, heapLimit: nat)
    requires WellFormed(MessageOf(p), pagesize) && FieldsOk(Fields(MessageOf(p), pagesize))
    ensures var m := MessageOf(p);
            var fits := m.GivePage? ==> PageFits(m, pagesize, Limit(CHUNK_SIZE, false, heapLimit));
            PacketOf(Arrived(m, pagesize, heapLimit)) == Some(p) <==> fits && Survives(p.page)
  {
    PacketReceived(p, pagesize);
  }

  lemma NumberArrives(p: Cluster.Packet, pagesize: nat, heapLimit: nat)
    requires WellFormed(MessageOf(p), pagesize) && FieldsOk(Fields(MessageOf(p), pagesize))
    ensures PageNumber(Arrived(MessageOf(p), pagesize, heapLimit)) == Some(IntToLong(LongToInt(p.page)))
    ensures PageEntry(IntToLong(LongToInt(p.page))) == p.page <==> p.page < TWO32
  {
    LowHalfSurvives(p.page);
  }

  /** A packet of the page protocol, sent and received, is handed to the handlers as the same packet exactly
      when its page number is in the range of an int and there was memory for its page. The entry of the page
      table its handler works on is the right one for every page number below 2^32. */
  method PacketTravels(p: Cluster.Packet, pagesize: nat, heapLimit: nat, memory: bytes)
    returns (arrived: Option<Cluster.Packet>, entry: int)
    requires WellFormed(MessageOf(p), pagesize) && pagesize + 1024 <= SIZE_LIMIT && heapLimit >= 256
    requires |memory| >= 512 + if p.msg.GivePage? then pagesize else 0
    ensures FieldsOk(Fields(MessageOf(p), pagesize))
    ensures var m := MessageOf(p);
            var fits := m.GivePage? ==> PageFits(m, pagesize, Limit(256, false, heapLimit));
            arrived == Some(p) <==> fits && Survives(p.page)
    ensures entry == p.page <==> p.page < TWO32
  {
    var r := Transfer(MessageOf(p), pagesize, heapLimit, memory);
    PacketArrives(p, pagesize, heapLimit);
    NumberArrives(p, pagesize, heapLimit);
    arrived := PacketOf(r.receipt.msg);
    entry := PageEntry(PageNumber(r.receipt.msg).value);
  }
}
