/** The format itself, in numbers and bytes: which arguments the writer accepts, what they mean, and what stands
    on the wire for them, said without the functions the writer and its specification share. */
module BinnWire {
  import opened Bytes
  import opened BinnFormat
  import opened BinnWrite
  import opened BinnContainer
  import opened BinnBuilder
  import opened BinnIter

  // ---------------------------------------------------------------- types

  /** The top three bits of a type's first byte; -1 for what is no type. */
  function Class(btype: int): int {
    if 0 <= btype <= 0xFF then btype / 0x20 else if 0x100 <= btype <= 0xFFFF then btype / 0x2000 else -1
  }

  /** Classes are those of the storage masks. */
  lemma Classes(btype: int)
    requires TypeCode(btype)
    ensures WriteStorage(btype) == (if Class(btype) == -1 then -1 else 0x20 * Class(btype))
    ensures Class(btype) == 1 ==> FixedSize(WriteStorage(btype)) == 1
    ensures Class(btype) == 2 ==> FixedSize(WriteStorage(btype)) == 2
    ensures Class(btype) == 3 ==> FixedSize(WriteStorage(btype)) == 4
    ensures Class(btype) == 4 ==> FixedSize(WriteStorage(btype)) == 8
  {
  }

  /** One-byte types have bit 0x10 clear, two-byte types have it set in their first byte. */
  lemma TypeCodes(t: int)
    ensures 0 <= t <= 0xFF ==> (TypeCode(t) <==> t % 0x20 < 0x10)
    ensures 0x100 <= t <= 0xFFFF ==> (TypeCode(t) <==> t / 0x100 % 0x20 >= 0x10)
    ensures t < 0 || 0x1_0000 <= t < 0x8_0000 ==> TypeCode(t)
    ensures 0 <= t <= 0xFF ==> (HasMore(t) <==> t % 0x20 >= 0x10)
  {
  }

  /** All that is asked of the caller of AddValue: a type code, and memory in which there is what is read. */
  lemma ReadableExactly(btype: int, mem: bytes, size: int)
    requires TypeCode(btype) && size < 0x4000_0000 && |mem| < 0x4000_0000
    ensures Readable(btype, None, size)
    ensures Readable(btype, Some(mem), size) <==>
              && (Class(btype) == 1 ==> |mem| >= 1)
              && (Class(btype) == 2 ==> |mem| >= 2)
              && (Class(btype) == 3 ==> |mem| >= 4)
              && (Class(btype) == 4 ==> |mem| >= 8)
              && (Class(btype) == 5 ==> size <= |mem| && (size == 0 ==> 0 in mem))
              && (Class(btype) == 6 ==> size <= |mem|)
              && (Class(btype) == 7 && size > 0 ==> size <= |mem| && SerializedContainer(mem[..size]))
  {
    Classes(btype);
  }

  /** The eight integer types, and the numbers each can hold. */
  lemma IntTypes(t: int, v: int)
    ensures IsInt(t) <==> t in {0x20, 0x21, 0x40, 0x41, 0x60, 0x61, 0x80, 0x81}
    ensures Fits(0x20, v) <==> 0 <= v <= 255
    ensures Fits(0x21, v) <==> -128 <= v <= 127
    ensures Fits(0x40, v) <==> 0 <= v <= 65535
    ensures Fits(0x41, v) <==> -32768 <= v <= 32767
    ensures Fits(0x60, v) <==> 0 <= v <= 0xFFFF_FFFF
    ensures Fits(0x61, v) <==> -0x8000_0000 <= v <= 0x7FFF_FFFF
    ensures Fits(0x80, v) <==> 0 <= v <= 0xFFFF_FFFF_FFFF_FFFF
    ensures Fits(0x81, v) <==> -0x8000_0000_0000_0000 <= v <= 0x7FFF_FFFF_FFFF_FFFF
  {
  }

  /** Even types are unsigned, odd ones are in two's complement; the first byte in memory is the least significant. */
  lemma IntMeaning(t: int, mem: bytes)
    requires IsInt(t) && |mem| >= FixedSize(StorageOf(t))
    ensures var m := mem[..FixedSize(StorageOf(t))];
            IntValue(t, mem) ==
            LittleEndian(m) - if t % 2 == 1 && m[|m| - 1] >= 128 then Power256(|m|) else 0
  {
    HostOrder(mem[..FixedSize(StorageOf(t))]);
  }

  /** A list has no keys, a map ids, an object names. */
  lemma KeysOf(k: Key)
    ensures KeyFor(0xE0, k) <==> k.NoKey?
    ensures KeyFor(0xE1, k) <==> k.Id?
    ensures KeyFor(0xE2, k) <==> k.Name?
    ensures forall b: int :: IsContainer(b) <==> 0xE0 <= b <= 0xE2
  {
  }

  /** A key is any 32-bit number, or any string of at most 255 bytes. */
  lemma KeysAllowed(k: Key)
    ensures k.Id? ==> (KeyOk(k) <==> -0x8000_0000 <= k.id <= 0x7FFF_FFFF)
    ensures k.Name? ==> (KeyOk(k) <==> |k.name| <= 255 && forall j :: 0 <= j < |k.name| ==> k.name[j] != 0)
  {
  }

  /** An id takes four bytes, the most significant first, in two's complement; a name is led by its length. */
  lemma KeyBytes(k: Key)
    requires KeyOk(k) && !k.NoKey?
    ensures k.Id? ==> |EncodeKey(k)| == 4 && Signed(Reverse(EncodeKey(k))) == k.id
    ensures k.Name? ==> |EncodeKey(k)| == 1 + |k.name| && EncodeKey(k)[0] == |k.name| && EncodeKey(k)[1..] == k.name
  {
    if k.Id? {
      var b := EncodeKey(k);
      WireOrder(b, 0);
      assert b[0..4] == b;
      HostOrder(Reverse(b));
    }
  }

  // ---------------------------------------------------------------- what is accepted

  /** What AddValue accepts: by the class of the type, whether there is memory, and the size. */
  predicate Acceptable(btype: int, pvalue: Option<bytes>, size: int) {
    var c := Class(btype);
    || c == 0
    || (1 <= c <= 4 && pvalue.Some?)
    || (5 <= c <= 6 && size >= 0 && (pvalue.Some? || size == 0))
    || (c == 7 && size > 0 && pvalue.Some?)
  }

  lemma AcceptedExactly(btype: int, pvalue: Option<bytes>, size: int, compress: bool)
    requires Readable(btype, pvalue, size)
    ensures Emit(btype, pvalue, size, compress).Some? <==> Acceptable(btype, pvalue, size)
  {
    Classes(btype);
    var mem: bytes := if pvalue.None? then [] else pvalue.value;
    if pvalue.Some? || NullAllowed(WriteStorage(btype), size) { StoredFits(btype, mem, compress); }
  }

  /** What binn_object_set accepts besides: a truth value, and without memory only the types without bytes that
      binn.h names, and empty strings and blobs. */
  lemma SetAcceptsExactly(btype: int, pvalue: Option<bytes>, size: int, compress: bool)
    requires btype == 0x80061 && pvalue.Some? ==> |pvalue.value| >= 4
    requires var t := ConvertType(btype, pvalue, size); t.Some? ==> Readable(t.value, pvalue, size)
    ensures var t := ConvertType(btype, pvalue, size);
            (t.Some? && Emit(t.value, pvalue, size, compress).Some?) <==>
              if pvalue.Some? then btype == 0x80061 || Acceptable(btype, pvalue, size)
              else btype in {0x00, 0x01, 0x02} || (btype in {0xA0, 0xC0} && size == 0)
  {
    var t := ConvertType(btype, pvalue, size);
    if t.Some? { AcceptedExactly(t.value, pvalue, size, compress); }
  }

  // ---------------------------------------------------------------- what is stored

  /** The type an integer is read back under: the shortest unsigned one for a number that is not negative, the
      shortest signed one for one that is; its own when it is asked not to compress, and when the number needs
      eight bytes. */
  lemma StoredUnder(btype: int, mem: bytes, compress: bool)
    requires IsInt(btype) && Readable(btype, Some(mem), 0)
    ensures var e := Emit(btype, Some(mem), 0, compress);
            && e.Some? && GetValue(e.value, 0).Some?
            && var v := IntValue(btype, mem);
               GetValue(e.value, 0).value.btype ==
                 if !compress || btype == 0x20 || btype == 0x21 then btype
                 else if 0 <= v < 0x100 then 0x20
                 else if 0 <= v < 0x1_0000 then 0x40
                 else if 0 <= v < 0x1_0000_0000 then 0x60
                 else if -0x80 <= v < 0 then 0x21
                 else if -0x8000 <= v < 0 then 0x41
                 else if -0x8000_0000 <= v < 0 then 0x61
                 else btype
  {
    AcceptedExactly(btype, Some(mem), 0, compress);
    NarrowingLosesNothing(btype, mem, btype);
    WrittenValue(btype, Some(mem), 0, compress);
  }

  /** What stands on the wire for it: the type and the bytes, the most significant first. */
  lemma IntOnWire(btype: int, mem: bytes, compress: bool)
    requires IsInt(btype) && Readable(btype, Some(mem), 0)
    ensures var e := Emit(btype, Some(mem), 0, compress);
            && e.Some? && |e.value| in {2, 3, 5, 9} && IsInt(e.value[0])
            && IntValue(e.value[0], Reverse(e.value[1..])) == IntValue(btype, mem)
  {
    AcceptedExactly(btype, Some(mem), 0, compress);
    NarrowingKeepsNumber(btype, mem);
    var t := StoredType(btype, mem, compress);
    var raw := mem[..FixedSize(StorageOf(t))];
    assert Emit(btype, Some(mem), 0, compress) == Some([t] + Reverse(raw));
    assert raw[..|raw|] == raw;
    TurnedRound(t, raw);
  }

  lemma TurnedRound(t: int, raw: bytes)
    requires IsInt(t) && |raw| == FixedSize(StorageOf(t))
    ensures var e := [t] + Reverse(raw);
            |e| in {2, 3, 5, 9} && Reverse(e[1..]) == raw && IntValue(t, Reverse(e[1..])) == IntValue(t, raw)
  {
    var e := [t] + Reverse(raw);
    assert e[1..] == Reverse(raw);
    ReverseTwice(raw);
  }

  /** A string is the front of the memory it is given: as long as its size says, or, for a size of 0, up to the
      first terminator. It is read back as it is, and stands on the wire behind its type and its length, with a
      terminator of its own. */
  lemma StringStored(btype: int, mem: bytes, size: nat, compress: bool) returns (d: bytes)
    requires Class(btype) == 5 && Readable(btype, Some(mem), size)
    ensures d <= mem && (if size > 0 then |d| == size else |d| < |mem| && mem[|d|] == 0 && 0 !in d)
    ensures var e := Emit(btype, Some(mem), size, compress);
            e.Some? && GetValue(e.value, 0) == Some(Value(btype, |d|, 0, d))
    ensures |d| <= 127 && btype <= 0xFF ==> Emit(btype, Some(mem), size, compress).value == [btype, |d|] + d + [0]
  {
    Classes(btype);
    AcceptedExactly(btype, Some(mem), size, compress);
    WrittenValue(btype, Some(mem), size, compress);
    var n := if size > 0 then size else StrLen(mem);
    d := mem[..n];
    CompactBytes(n);
    if n <= 127 && btype <= 0xFF { assert [btype] + [n] == [btype, n]; }
  }

  /** A blob is the front of the memory of the given size, behind its type and its length in four bytes. */
  lemma BlobStored(btype: int, mem: bytes, size: nat, compress: bool)
    requires Class(btype) == 6 && Readable(btype, Some(mem), size)
    ensures var e := Emit(btype, Some(mem), size, compress);
            && e.Some? && GetValue(e.value, 0) == Some(Value(btype, size, 0, mem[..size]))
            && (btype <= 0xFF ==> e.value == [btype] + Bytes32(size) + mem[..size])
            && (btype > 0xFF ==> e.value == [btype / 0x100, btype % 0x100] + Bytes32(size) + mem[..size])
  {
    Classes(btype);
    AcceptedExactly(btype, Some(mem), size, compress);
    WrittenValue(btype, Some(mem), size, compress);
  }

  /** A container is copied as it is. */
  lemma ContainerStored(btype: int, mem: bytes, size: int, compress: bool)
    requires Class(btype) == 7 && Readable(btype, Some(mem), size) && size > 0
    ensures var e := Emit(btype, Some(mem), size, compress);
            && e == Some(mem[..size]) && GetValue(e.value, 0).Some?
            && var v := GetValue(e.value, 0).value;
               v.btype == mem[0] && v.size == size && v.data == mem[..size]
  {
    Classes(btype);
    AcceptedExactly(btype, Some(mem), size, compress);
    WrittenValue(btype, Some(mem), size, compress);
  }

  /** Empty strings and blobs need no memory. */
  lemma EmptyStored(btype: int, compress: bool)
    requires (Class(btype) == 5 || Class(btype) == 6) && TypeCode(btype)
    ensures var e := Emit(btype, None, 0, compress);
            e.Some? && GetValue(e.value, 0) == Some(Value(btype, 0, 0, []))
  {
    Classes(btype);
    AcceptedExactly(btype, None, 0, compress);
    WrittenValue(btype, None, 0, compress);
  }

  /** Null, true and false are their types. */
  lemma NothingStored(compress: bool)
    ensures Emit(0, None, 0, compress) == Some([0]) && GetValue([0], 0) == Some(Value(0, 0, 0, []))
    ensures Emit(1, None, 0, compress) == Some([1]) && GetValue([1], 0) == Some(Value(0x80061, 0, 0, [1, 0, 0, 0]))
    ensures Emit(2, None, 0, compress) == Some([2]) && GetValue([2], 0) == Some(Value(0x80061, 0, 0, [0, 0, 0, 0]))
  {
    assert Store(1, 2) == [1, 0] && Store(0, 2) == [0, 0];
    assert StoreSigned(1, 4) == [1, 0, 0, 0] && StoreSigned(0, 4) == [0, 0, 0, 0];
  }

  /** AddValue never reserves more than four bytes too many. */
  lemma ReservedNearly(btype: int, pvalue: Option<bytes>, size: int, compress: bool)
    requires Readable(btype, pvalue, size) && Emit(btype, pvalue, size, compress).Some?
    ensures var n := |Emit(btype, pvalue, size, compress).value|;
            n <= Reserved(btype, pvalue, size, compress) <= n + 4
  {
    WrittenFits(btype, pvalue, size, compress);
  }
  // ---------------------------------------------------------------- what is read

  /** A number with its bytes in order, the most significant first. */
  function BigEndian(b: bytes): nat {
    LittleEndian(Reverse(b))
  }

  /** A header of one-byte fields. */
  lemma ShortHeaderRead(b: bytes)
    requires |b| >= 3 && b[1] < 128 && b[2] < 128
    ensures ParseHeader(b, 0) ==
            if b[0] in {0xE0, 0xE1, 0xE2} && b[1] >= 3 then Some(Header(b[0], b[2], b[1], 3)) else None
  {
  }

  lemma LongRead(b: bytes, p: nat)
    requires p + 4 <= |b| && b[p] >= 128
    ensures ReadCompact(b, p) == Some((BigEndian(b[p..p + 4]) - 0x8000_0000, p + 4))
  {
    WireOrder(b, p);
  }

  /** And one of four-byte fields, whose top bits do not count. */
  lemma LongHeaderRead(b: bytes)
    requires |b| >= 9 && b[1] >= 128 && b[5] >= 128
    ensures var size, count := BigEndian(b[1..5]) - 0x8000_0000, BigEndian(b[5..9]) - 0x8000_0000;
            ParseHeader(b, 0) ==
            if b[0] in {0xE0, 0xE1, 0xE2} && size >= 3 then Some(Header(b[0], count, size, 9)) else None
  {
    LongRead(b, 1);
    LongRead(b, 5);
  }

  /** Where a header that begins like b ends. */
  function HeaderEnd(b: bytes): nat {
    var q := if |b| >= 2 && b[1] >= 128 then 5 else 2;
    q + if |b| > q && b[q] >= 128 then 4 else 1
  }

  /** A header is cut when the block ends before it; nine bytes are enough for any. */
  lemma CutExactly(b: bytes)
    ensures HeaderCut(b) <==> |b| == 0 || (b[0] in {0xE0, 0xE1, 0xE2} && |b| < HeaderEnd(b))
    ensures HeaderEnd(b) <= 9
    ensures HeaderCut(b) ==> ParseHeader(b, 0).None?
  {
  }

  /** The magic number, as a little-endian host reads it. */
  lemma Magic(b: bytes)
    ensures IsMagic(b) <==> |b| >= 4 && LittleEndian(b[..4]) == 0x1F22B11F
  {
    if |b| >= 4 {
      var m := b[..4];
      FourDigits(m);
      if LittleEndian(m) == 0x1F22B11F { SameWord(Reverse(m), [0x1F, 0x22, 0xB1, 0x1F]); }
      assert Reverse(m)[0] == b[3] && Reverse(m)[1] == b[2] && Reverse(m)[2] == b[1] && Reverse(m)[3] == b[0];
    }
  }

  /** An empty object in three bytes, as the writer leaves it, cannot be told from the front of a structure. */
  lemma ThreeBytesAreTooFew(b: bytes)
    requires |b| < 4
    ensures ValidityOf(b) == OutOfBlock
  {
  }

  /** A list is found valid though its item lies past the size it states. */
  lemma PastSizeIsValid()
    ensures ValidityOf([0xE0, 3, 1, 0x20, 7]) == Valid(Header(0xE0, 1, 3, 3))
  {
    var b: bytes := [0xE0, 3, 1, 0x20, 7];
    assert NextPosition(0xE0, b, 3) == Some(5);
    assert StaysInBlock(0xE0, b, 5, 0);
    assert StaysInBlock(0xE0, b, 3, 1);
  }

  /** And another though its two items are the same bytes: the length of a blob may be negative. */
  lemma SameItemTwiceIsValid()
    ensures ValidityOf([0xE0, 8, 2, 0xC0, 0xFF, 0xFF, 0xFF, 0xFB]) == Valid(Header(0xE0, 2, 8, 3))
  {
    var b: bytes := [0xE0, 8, 2, 0xC0, 0xFF, 0xFF, 0xFF, 0xFB];
    assert Signed32(Word32(b, 4)) == -5;
    assert NextPosition(0xE0, b, 3) == Some(3);
    assert StaysInBlock(0xE0, b, 3, 0);
    assert StaysInBlock(0xE0, b, 3, 1);
    assert StaysInBlock(0xE0, b, 3, 2);
  }
  // ---------------------------------------------------------------- an object

  const HELLO: bytes := [104, 101, 108, 108, 111, 0]
  const HELLO_WRITTEN: bytes := [0xA0, 5, 104, 101, 108, 108, 111, 0]
  const HELLO_READ: bytes := [104, 101, 108, 108, 111]

  lemma HelloStored()
    ensures Planned(true, 0xA0, Some(HELLO), 0, Some(HELLO_WRITTEN), 12)
    ensures GetValue(HELLO_WRITTEN, 0) == Some(Value(0xA0, 5, 0, HELLO_READ))
  {
    assert HELLO[5] == 0;
    var d := StringStored(0xA0, HELLO, 0, true);
    assert |d| == 5 by {
      assert forall k :: 0 <= k < 5 ==> HELLO[k] != 0;
    }
    assert d == HELLO_READ;
    assert [0xA0, 5] + HELLO_READ + [0] == HELLO_WRITTEN;
  }

  method SetHello(obj: Binn, key: bytes) returns (ok: bool)
    requires obj.Valid() && obj.btype == 0xE2 && !obj.disableIntCompression && obj.usedSize <= 100 && obj.Capacity() >= 256
    requires |key| <= 8 && CString(key)
    modifies obj`pbuf, obj`usedSize, obj`dirty, obj`count, obj`items, obj.pbuf
    ensures obj.Valid() && (obj.pbuf == old(obj.pbuf) || fresh(obj.pbuf)) && obj.Capacity() == old(obj.Capacity())
    ensures ok == Find(old(obj.items), Name(key)).None?
    ensures obj.items == old(obj.items) + if ok then [Item(Name(key), HELLO_WRITTEN)] else []
    ensures obj.usedSize <= old(obj.usedSize) + if ok then 20 else 0
  {
    HelloStored();
    ok := obj.ObjectSetRaw(Some(key), 0xA0, Some(HELLO), 0, Some(HELLO_WRITTEN), 12);
    if !ok { assert |obj.pbuf[..obj.usedSize]| == |old(obj.pbuf[..obj.usedSize])|; }
  }

  const UPPER: bytes := [84, 121, 112, 101]
  const LOWER: bytes := [116, 121, 112, 101]
  const MIXED: bytes := [116, 89, 80, 69]

  lemma OneKey()
    ensures var items := [Item(Name(UPPER), HELLO_WRITTEN)];
            Find(items, Name(LOWER)) == Some(0) && Find(items, Name(MIXED)) == Some(0)
  {
    SameNameIs(UPPER, LOWER);
    SameNameIs(UPPER, MIXED);
    FindIs([Item(Name(UPPER), HELLO_WRITTEN)], Name(LOWER), 0);
    FindIs([Item(Name(UPPER), HELLO_WRITTEN)], Name(MIXED), 0);
  }

  method SetTwice(obj: Binn) returns (first: bool, second: bool)
    requires obj.Valid() && obj.btype == 0xE2 && !obj.disableIntCompression && obj.usedSize == 9 && obj.Capacity() >= 256
    requires obj.items == []
    modifies obj`pbuf, obj`usedSize, obj`dirty, obj`count, obj`items, obj.pbuf
    ensures obj.Valid() && (obj.pbuf == old(obj.pbuf) || fresh(obj.pbuf))
    ensures first && !second && obj.items == [Item(Name(UPPER), HELLO_WRITTEN)]
  {
    OneKey();
    first := SetHello(obj, UPPER);
    second := SetHello(obj, LOWER);
  }

  /** "hello" is set under "Type", nothing more can be set under "type", and "hello" is what "tYPE" gives. */
  method SetOnce() returns (first: bool, second: bool, value: Option<Value>)
    ensures first && !second && value == Some(Value(0xA0, 5, 0, [104, 101, 108, 108, 111]))
  {
    OneKey();
    HelloStored();
    var obj := Binn.Create(0xE2, 0, null, 0x1000);
    first, second := SetTwice(obj);
    value := obj.ObjectGet(MIXED);
  }
}
