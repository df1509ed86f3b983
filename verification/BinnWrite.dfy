/** What AddValue writes for a value held in host memory, and that the reader gives it back. */
module BinnWrite {
  import opened Bytes
  import opened BinnFormat

  // ---------------------------------------------------------------- integers

  /** The number an integer type finds in memory. */
  function IntValue(btype: int, mem: bytes): int
    requires IsInt(btype) && |mem| >= FixedSize(StorageOf(btype))
  {
    var m := mem[..FixedSize(StorageOf(btype))];
    if IsSigned(btype) then Signed(m) else Unsigned(m)
  }

  /** The numbers an integer type can hold. */
  predicate Fits(btype: int, v: int)
    requires IsInt(btype)
  {
    var range := Range(FixedSize(StorageOf(btype)));
    if IsSigned(btype) then -(range / 2) <= v < range / 2 else 0 <= v < range
  }

  /** compress_int: the type under which the number is stored; the pointer to it does not move. */
  function CompressInt(btype: int, mem: bytes): int
    requires IsInt(btype) && |mem| >= FixedSize(StorageOf(btype))
  {
    if StorageOf(btype) == BYTE then btype
    else
      var v := IntValue(btype, mem);
      if v >= 0 then
        if v <= 0xFF then BINN_UINT8
        else if v <= 0xFFFF then BINN_UINT16
        else if v <= 0xFFFF_FFFF then BINN_UINT32
        else btype
      else
        if v >= -0x80 then BINN_INT8
        else if v >= -0x8000 then BINN_INT16
        else if v >= -0x8000_0000 then BINN_INT32
        else btype
  }

  lemma IntFits(btype: int, mem: bytes)
    requires IsInt(btype) && |mem| >= FixedSize(StorageOf(btype))
    ensures Fits(btype, IntValue(btype, mem))
  {
    var m := mem[..FixedSize(StorageOf(btype))];
    UnsignedBound(m);
    SignedBound(m);
  }

  lemma NarrowingKeepsNumber(btype: int, mem: bytes)
    requires IsInt(btype) && |mem| >= FixedSize(StorageOf(btype))
    ensures var t := CompressInt(btype, mem);
            && IsInt(t) && FixedSize(StorageOf(t)) <= FixedSize(StorageOf(btype))
            && IntValue(t, mem) == IntValue(btype, mem)
  {
    IntFits(btype, mem);
    var n := FixedSize(StorageOf(btype));
    var v := IntValue(btype, mem);
    var t := CompressInt(btype, mem);
    var k := FixedSize(StorageOf(t));
    if t != btype {
      if v >= 0 {
        assert Unsigned(mem[..n]) == v;
        LowBytes(mem[..n], k);
      } else {
        LowBytesNegative(mem[..n], k);
      }
      assert mem[..n][..k] == mem[..k];
    }
  }

  /** Narrowing keeps the number, no integer type that can hold it is shorter, a negative number stays signed,
      a number that is not and is narrowed becomes unsigned, and one that needs 8 bytes keeps its type. */
  lemma NarrowingLosesNothing(btype: int, mem: bytes, other: int)
    requires IsInt(btype) && |mem| >= FixedSize(StorageOf(btype)) && IsInt(other)
    ensures var t := CompressInt(btype, mem);
            && IsInt(t) && FixedSize(StorageOf(t)) <= FixedSize(StorageOf(btype))
            && IntValue(t, mem) == IntValue(btype, mem)
            && (Fits(other, IntValue(btype, mem)) ==> FixedSize(StorageOf(t)) <= FixedSize(StorageOf(other)))
            && (t != btype ==> (IsSigned(t) <==> IntValue(btype, mem) < 0))
            && (IntValue(btype, mem) < 0 ==> IsSigned(t))
            && (FixedSize(StorageOf(t)) == 8 ==> t == btype)
  {
    IntFits(btype, mem);
    NarrowingKeepsNumber(btype, mem);
  }

  /** copy_int_value: the number at source, converted to another integer type; 64-bit variables in between. */
  function CopyInt(data: bytes, source: int, dest: int): Option<bytes>
    requires IsInt(source) && |data| >= FixedSize(StorageOf(source))
  {
    IntFits(source, data);
    var v := IntValue(source, data);
    if !IsInt(dest) then None
    else if !IsSigned(source) && IsSigned(dest) && v > 0x7FFF_FFFF_FFFF_FFFF then None
    else if IsSigned(source) && !IsSigned(dest) && v < 0 then None
    else if dest == BINN_INT8 then if v < -0x80 || v > 0x7F then None else Some(StoreSigned(v, 1))
    else if dest == BINN_INT16 then if v < -0x8000 || v > 0x7FFF then None else Some(StoreSigned(v, 2))
    else if dest == BINN_INT32 then if v < -0x8000_0000 || v > 0x7FFF_FFFF then None else Some(StoreSigned(v, 4))
    else if dest == BINN_INT64 then Some(StoreSigned(v, 8))
    else if dest == BINN_UINT8 then if v > 0xFF then None else Some(Store(v, 1))
    else if dest == BINN_UINT16 then if v > 0xFFFF then None else Some(Store(v, 2))
    else if dest == BINN_UINT32 then if v > 0xFFFF_FFFF then None else Some(Store(v, 4))
    else Some(Store(v, 8))
  }

  /** copy_value into an integer: only integers convert, and the same type is copied as it is. */
  function ReadAsInt(value: Value, dest: int): Option<bytes>
    requires IsInt(value.btype) ==> |value.data| >= FixedSize(StorageOf(value.btype))
    requires IsInt(dest)
  {
    if !IsInt(value.btype) then None
    else if value.btype != dest then CopyInt(value.data, value.btype, dest)
    else Some(value.data[..FixedSize(StorageOf(dest))])
  }

  lemma CopyIntExact(data: bytes, source: int, dest: int)
    requires IsInt(source) && |data| >= FixedSize(StorageOf(source)) && IsInt(dest)
    ensures var v := IntValue(source, data);
            var r := CopyInt(data, source, dest);
            && (r.Some? <==> Fits(dest, v))
            && (r.Some? ==> |r.value| == FixedSize(StorageOf(dest)))
            && (r.Some? ==> if IsSigned(dest) then Signed(r.value) == v else Unsigned(r.value) == v)
  {
    IntFits(source, data);
  }

  /** Reading an integer as another type succeeds exactly when the number fits, and returns it. */
  lemma ReadAsIntExact(value: Value, dest: int)
    requires IsInt(value.btype) && |value.data| >= FixedSize(StorageOf(value.btype)) && IsInt(dest)
    ensures var v := IntValue(value.btype, value.data);
            var r := ReadAsInt(value, dest);
            && (r.Some? <==> Fits(dest, v))
            && (r.Some? ==> |r.value| == FixedSize(StorageOf(dest)) && IntValue(dest, r.value) == v)
  {
    var r := ReadAsInt(value, dest);
    if value.btype == dest { IntFits(dest, value.data); } else { CopyIntExact(value.data, value.btype, dest); }
    if r.Some? {
      assert r.value[..|r.value|] == r.value;
    }
  }

  // ---------------------------------------------------------------- the bytes of a value

  /** The type of a value, one byte or two. */
  function TypeBytes(btype: int): (b: bytes)
    requires 0 <= btype <= 0xFFFF
  {
    if btype > 0xFF then [btype / 0x100, btype % 0x100] else [btype]
  }

  /** strlen */
  function StrLen(mem: bytes): (n: nat)
    requires 0 in mem
    ensures n < |mem| && mem[n] == 0 && 0 !in mem[..n]
  {
    if mem[0] == 0 then 0
    else
      var n := 1 + StrLen(mem[1..]);
      assert mem[..n] == [mem[0]] + mem[1..][..n - 1];
      n
  }

  /** The length of a string argument: a size of 0 asks for strlen, and there may be no memory at all. */
  function StringLength(pvalue: Option<bytes>, size: nat): nat
    requires size == 0 && pvalue.Some? ==> 0 in pvalue.value
  {
    if size > 0 then size else if pvalue.None? then 0 else StrLen(pvalue.value)
  }

  /** e is a serialized container of its own size. */
  predicate SerializedContainer(e: bytes) {
    ParseHeader(e, 0).Some? && ParseHeader(e, 0).value.size == |e|
  }

  /** AddValue may read what it reads: the caller's promise about its pointer, for the given type and size. */
  predicate Readable(btype: int, pvalue: Option<bytes>, size: int) {
    && TypeCode(btype)
    && size < SIZE_LIMIT
    && (pvalue.Some? ==>
          var mem := pvalue.value;
          var storage := WriteStorage(btype);
          && |mem| < SIZE_LIMIT
          && FixedSize(storage) <= |mem|
          && (storage == BLOB ==> size <= |mem|)
          && (storage == STRING ==> size <= |mem| && (size == 0 ==> 0 in mem))
          && (storage == CONTAINER && size > 0 ==> size <= |mem| && SerializedContainer(mem[..size])))
  }

  predicate NullAllowed(storage: int, size: int) {
    storage == NOBYTES || ((storage == BLOB || storage == STRING) && size == 0)
  }

  /** The type a value is stored under. */
  function StoredType(btype: int, mem: bytes, compress: bool): int
    requires FixedSize(WriteStorage(btype)) <= |mem|
  {
    if IsInt(btype) && compress then CompressInt(btype, mem) else btype
  }

  /** What AddValue appends; nothing when it refuses. */
  function Emit(btype: int, pvalue: Option<bytes>, size: int, compress: bool): Option<bytes>
    requires Readable(btype, pvalue, size)
  {
    if pvalue.None? && !NullAllowed(WriteStorage(btype), size) then None
    else
      var mem: bytes := if pvalue.None? then [] else pvalue.value;
      var t := StoredType(btype, mem, compress);
      var storage := WriteStorage(t);
      if storage == NOBYTES then Some(TypeBytes(t))
      else if storage == BLOB then
        if size < 0 then None else Some(TypeBytes(t) + Bytes32(size) + mem[..size])
      else if storage == STRING then
        if size < 0 then None
        else
          var n := StringLength(pvalue, size);
          Some(TypeBytes(t) + Compact(n) + mem[..n] + [0])
      else if storage == CONTAINER then
        if size <= 0 then None else Some(mem[..size])
      else if storage == -1 then None
      else
        StoredFits(btype, mem, compress);
        Some(TypeBytes(t) + Reverse(mem[..FixedSize(storage)]))
  }

  lemma StoredFits(btype: int, mem: bytes, compress: bool)
    requires FixedSize(WriteStorage(btype)) <= |mem|
    ensures FixedSize(WriteStorage(StoredType(btype, mem, compress))) <= FixedSize(WriteStorage(btype))
    ensures IsInt(StoredType(btype, mem, compress)) <==> IsInt(btype)
  {
    if IsInt(btype) { NarrowingLosesNothing(btype, mem, btype); }
  }

  /** What GetValue is to return for the value written. */
  function Meaning(btype: int, pvalue: Option<bytes>, size: int, compress: bool): Value
    requires Readable(btype, pvalue, size) && Emit(btype, pvalue, size, compress).Some?
  {
    var mem: bytes := if pvalue.None? then [] else pvalue.value;
    var t := StoredType(btype, mem, compress);
    var storage := WriteStorage(t);
    if t == BINN_TRUE then Value(BINN_BOOL, 0, 0, StoreSigned(1, 4))
    else if t == BINN_FALSE then Value(BINN_BOOL, 0, 0, StoreSigned(0, 4))
    else if storage == BLOB then Value(t, size, 0, mem[..size])
    else if storage == STRING then
      var n := StringLength(pvalue, size);
      Value(t, n, 0, mem[..n])
    else if storage == CONTAINER then Value(mem[0], size, ParseHeader(mem[..size], 0).value.count, mem[..size])
    else
      StoredFits(btype, mem, compress);
      Value(t, 0, 0, mem[..FixedSize(storage)])
  }

  /** The space AddValue reserves for a value (its ArgSize). */
  function Reserved(btype: int, pvalue: Option<bytes>, size: int, compress: bool): nat
    requires Readable(btype, pvalue, size)
  {
    if pvalue.None? && !NullAllowed(WriteStorage(btype), size) then 0
    else
      var mem: bytes := if pvalue.None? then [] else pvalue.value;
      var storage := WriteStorage(StoredType(btype, mem, compress));
      2 + if size < 0 && (storage == BLOB || storage == STRING || storage == CONTAINER) then 0
          else if storage == BLOB then size + 4
          else if storage == STRING then StringLength(pvalue, size) + 5
          else if storage == CONTAINER then size
          else FixedSize(storage)
  }

  // ---------------------------------------------------------------- what is written can be skipped and read

  lemma TypeBytesRead(btype: int, rest: bytes)
    requires TypeCode(btype) && WriteStorage(btype) != -1 && btype <= 0xFFFF
    ensures var b := TypeBytes(btype) + rest;
            && StorageOf(b[0]) == WriteStorage(btype)
            && (HasMore(b[0]) <==> |TypeBytes(btype)| == 2)
            && btype == if HasMore(b[0]) then b[0] as int * 0x100 + b[1] as int else b[0]
  {
  }

  lemma StoredTypeCode(btype: int, mem: bytes, compress: bool)
    requires FixedSize(WriteStorage(btype)) <= |mem| && TypeCode(btype) && WriteStorage(btype) != -1
    ensures var t := StoredType(btype, mem, compress);
            TypeCode(t) && WriteStorage(t) != -1 && 0 <= t
    ensures WriteStorage(btype) == WriteStorage(StoredType(btype, mem, compress)) ||
            FixedSize(WriteStorage(StoredType(btype, mem, compress))) > 0
  {
    if IsInt(btype) { NarrowingLosesNothing(btype, mem, btype); }
  }

  lemma FixedValue(t: int, raw: bytes)
    requires TypeCode(t) && 0 <= t <= 0xFFFF && |raw| == FixedSize(WriteStorage(t)) && WriteStorage(t) < STRING
    ensures var e := TypeBytes(t) + Reverse(raw);
            && IsValue(e)
            && GetValue(e, 0) == Some(
                 if t == BINN_TRUE then Value(BINN_BOOL, 0, 0, StoreSigned(1, 4))
                 else if t == BINN_FALSE then Value(BINN_BOOL, 0, 0, StoreSigned(0, 4))
                 else Value(t, 0, 0, raw))
  {
    TypeBytesRead(t, Reverse(raw));
    var e := TypeBytes(t) + Reverse(raw);
    var q := |TypeBytes(t)|;
    assert e[q..q + |raw|] == Reverse(raw);
    ReverseTwice(raw);
  }

  lemma BlobValue(t: int, data: bytes)
    requires TypeCode(t) && 0 <= t <= 0xFFFF && WriteStorage(t) == BLOB && |data| < SIZE_LIMIT
    ensures var e := TypeBytes(t) + Bytes32(|data|) + data;
            IsValue(e) && GetValue(e, 0) == Some(Value(t, |data|, 0, data))
  {
    var e := TypeBytes(t) + Bytes32(|data|) + data;
    assert e == TypeBytes(t) + (Bytes32(|data|) + data);
    TypeBytesRead(t, Bytes32(|data|) + data);
    var q := |TypeBytes(t)|;
    assert e[q..q + 4] == Bytes32(|data|);
    HoldsIsSlice(e, q, Bytes32(|data|));
    Word32At(e, q, |data|);
    assert e[q + 4..q + 4 + |data|] == data;
  }

  lemma StringValue(t: int, data: bytes)
    requires TypeCode(t) && 0 <= t <= 0xFFFF && WriteStorage(t) == STRING && |data| < SIZE_LIMIT
    ensures var e := TypeBytes(t) + Compact(|data|) + data + [0];
            IsValue(e) && GetValue(e, 0) == Some(Value(t, |data|, 0, data))
  {
    var e := TypeBytes(t) + Compact(|data|) + data + [0];
    assert e == TypeBytes(t) + (Compact(|data|) + data + [0]);
    TypeBytesRead(t, Compact(|data|) + data + [0]);
    var q := |TypeBytes(t)|;
    var r := q + |Compact(|data|)|;
    assert e[q..r] == Compact(|data|);
    HoldsIsSlice(e, q, Compact(|data|));
    CompactRoundTrip(e, q, |data|);
    assert e[r..r + |data|] == data;
  }

  lemma ContainerValue(e: bytes)
    requires SerializedContainer(e)
    ensures IsValue(e) && GetValue(e, 0) == Some(Value(e[0], |e|, ParseHeader(e, 0).value.count, e))
  {
    assert e[0..|e|] == e;
  }

  /** No more bytes are written than were reserved. */
  lemma WrittenFits(btype: int, pvalue: Option<bytes>, size: int, compress: bool)
    requires Readable(btype, pvalue, size) && Emit(btype, pvalue, size, compress).Some?
    ensures |Emit(btype, pvalue, size, compress).value| <= Reserved(btype, pvalue, size, compress)
  {
  }

  /** The bytes are one value, which reads as the meaning of what was passed. */
  predicate ReadsBack(btype: int, pvalue: Option<bytes>, size: int, compress: bool)
    requires Readable(btype, pvalue, size) && Emit(btype, pvalue, size, compress).Some?
  {
    var e := Emit(btype, pvalue, size, compress).value;
    IsValue(e) && GetValue(e, 0) == Some(Meaning(btype, pvalue, size, compress))
  }

  lemma BlobReadsBack(btype: int, pvalue: Option<bytes>, size: int, compress: bool)
    requires Readable(btype, pvalue, size) && Emit(btype, pvalue, size, compress).Some? && WriteStorage(btype) == BLOB
    ensures ReadsBack(btype, pvalue, size, compress)
  {
    var mem: bytes := if pvalue.None? then [] else pvalue.value;
    BlobValue(btype, mem[..size]);
  }

  lemma StringReadsBack(btype: int, pvalue: Option<bytes>, size: int, compress: bool)
    requires Readable(btype, pvalue, size) && Emit(btype, pvalue, size, compress).Some? && WriteStorage(btype) == STRING
    ensures ReadsBack(btype, pvalue, size, compress)
  {
    var mem: bytes := if pvalue.None? then [] else pvalue.value;
    StringValue(btype, mem[..StringLength(pvalue, size)]);
  }

  lemma ContainerReadsBack(btype: int, pvalue: Option<bytes>, size: int, compress: bool)
    requires Readable(btype, pvalue, size) && Emit(btype, pvalue, size, compress).Some?
    requires WriteStorage(btype) == CONTAINER
    ensures ReadsBack(btype, pvalue, size, compress)
  {
    ContainerValue(pvalue.value[..size]);
  }

  lemma FixedReadsBack(btype: int, pvalue: Option<bytes>, size: int, compress: bool)
    requires Readable(btype, pvalue, size) && Emit(btype, pvalue, size, compress).Some? && WriteStorage(btype) < STRING
    ensures ReadsBack(btype, pvalue, size, compress)
  {
    var mem: bytes := if pvalue.None? then [] else pvalue.value;
    StoredTypeCode(btype, mem, compress);
    StoredFits(btype, mem, compress);
    var t := StoredType(btype, mem, compress);
    FixedValue(t, mem[..FixedSize(WriteStorage(t))]);
    if WriteStorage(t) == NOBYTES { assert TypeBytes(t) + Reverse(mem[..0]) == TypeBytes(t); }
  }

  /** Whatever AddValue writes, skipping from its start lands on its end, the reader gives back the value,
      and no more bytes are written than were reserved. */
  lemma WrittenValue(btype: int, pvalue: Option<bytes>, size: int, compress: bool)
    requires Readable(btype, pvalue, size) && Emit(btype, pvalue, size, compress).Some?
    ensures var e := Emit(btype, pvalue, size, compress).value;
            && IsValue(e)
            && GetValue(e, 0) == Some(Meaning(btype, pvalue, size, compress))
            && |e| <= Reserved(btype, pvalue, size, compress)
  {
    WrittenFits(btype, pvalue, size, compress);
    assert ReadsBack(btype, pvalue, size, compress) by {
      var storage := WriteStorage(btype);
      if storage == BLOB {
        BlobReadsBack(btype, pvalue, size, compress);
      } else if storage == STRING {
        StringReadsBack(btype, pvalue, size, compress);
      } else if storage == CONTAINER {
        ContainerReadsBack(btype, pvalue, size, compress);
      } else {
        FixedReadsBack(btype, pvalue, size, compress);
      }
    }
  }

  lemma StoredInt(btype: int, mem: bytes, compress: bool)
    requires IsInt(btype) && Readable(btype, Some(mem), 0)
    ensures Emit(btype, Some(mem), 0, compress).Some? && GetValue(Emit(btype, Some(mem), 0, compress).value, 0).Some?
    ensures var value := GetValue(Emit(btype, Some(mem), 0, compress).value, 0).value;
            && IsInt(value.btype) && |value.data| == FixedSize(StorageOf(value.btype))
            && IntValue(value.btype, value.data) == IntValue(btype, mem)
  {
    WrittenValue(btype, Some(mem), 0, compress);
    NarrowingKeepsNumber(btype, mem);
    var t := StoredType(btype, mem, compress);
    var n := FixedSize(StorageOf(t));
    assert Meaning(btype, Some(mem), 0, compress) == Value(t, 0, 0, mem[..n]);
    assert mem[..n][..n] == mem[..n];
  }

  /** Storing an integer and reading it back as any integer type succeeds exactly when the number fits that
      type, and gives the number back. */
  lemma StoreThenReadInt(btype: int, mem: bytes, compress: bool, dest: int)
    requires IsInt(btype) && Readable(btype, Some(mem), 0) && IsInt(dest)
    ensures var e := Emit(btype, Some(mem), 0, compress);
            && e.Some? && GetValue(e.value, 0).Some? && IsInt(GetValue(e.value, 0).value.btype)
    ensures var value := GetValue(Emit(btype, Some(mem), 0, compress).value, 0).value;
            var v := IntValue(btype, mem);
            && |value.data| == FixedSize(StorageOf(value.btype))
            && (ReadAsInt(value, dest).Some? <==> Fits(dest, v))
            && (Fits(dest, v) ==> IntValue(dest, ReadAsInt(value, dest).value) == v)
  {
    StoredInt(btype, mem, compress);
    var value := GetValue(Emit(btype, Some(mem), 0, compress).value, 0).value;
    ReadAsIntExact(value, dest);
  }
}
