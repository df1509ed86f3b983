/** The writer: a growing buffer that keeps nine bytes free for a header written backwards when it is asked
    for. Pointers into the buffer are offsets; alloc_size is the length of the buffer. */
module BinnBuilder {
  import opened Bytes
  import opened BinnFormat
  import opened BinnWrite
  import opened BinnContainer
  import opened BinnReader
  import opened BinnRuns

  const CHUNK_SIZE := 256

  // ---------------------------------------------------------------- growing

  /** The size doubled some number of times. */
  function Doubled(size: nat, times: nat): nat {
    if times == 0 then size else 2 * Doubled(size, times - 1)
  }

  /** The size a buffer grows to. */
  function Allocation(needed: int, alloc: nat): (size: nat)
    requires 0 < alloc
    ensures needed <= size && alloc <= size
    ensures size == alloc || size < 2 * needed
    decreases needed - alloc
  {
    if alloc < needed then Allocation(needed, 2 * alloc) else alloc
  }

  lemma {:induction false} DoubledTwice(size: nat, times: nat)
    ensures Doubled(2 * size, times) == Doubled(size, times + 1)
  {
    if times > 0 { DoubledTwice(size, times - 1); }
  }

  /** It is a doubling of the old size, and every doubling that suffices is at least as large. */
  lemma {:induction false} AllocationIsLeast(needed: int, alloc: nat, times: nat)
    requires 0 < alloc
    ensures exists k: nat :: Allocation(needed, alloc) == Doubled(alloc, k)
    ensures Doubled(alloc, times) >= needed ==> Allocation(needed, alloc) <= Doubled(alloc, times)
    decreases needed - alloc
  {
    if alloc < needed {
      AllocationIsLeast(needed, 2 * alloc, if times > 0 then times - 1 else 0);
      var k: nat :| Allocation(needed, 2 * alloc) == Doubled(2 * alloc, k);
      DoubledTwice(alloc, k);
      if times > 0 { DoubledTwice(alloc, times - 1); }
    } else {
      assert Doubled(alloc, 0) == alloc;
      AtLeast(alloc, times);
    }
  }

  lemma {:induction false} AtLeast(size: nat, times: nat)
    ensures size <= Doubled(size, times)
  {
    if times > 0 { AtLeast(size, times - 1); }
  }

  /** A buffer of the given length is, or can be made, large enough. */
  predicate CanHold(needed: int, length: nat, preAllocated: bool, heapLimit: nat)
    requires 0 < length
  {
    needed <= length || (!preAllocated && Allocation(needed, length) <= heapLimit)
  }

  /** The largest size a buffer of the given length can come to have. */
  function Limit(length: nat, preAllocated: bool, heapLimit: nat): (n: nat)
    requires 0 < length
    ensures length <= n
    decreases heapLimit - length
  {
    if !preAllocated && 2 * length <= heapLimit then Limit(2 * length, preAllocated, heapLimit) else length
  }

  /** What a buffer can be made to hold is bounded by one number. */
  lemma {:induction false} CanHoldExactly(needed: int, length: nat, preAllocated: bool, heapLimit: nat)
    requires 0 < length
    ensures CanHold(needed, length, preAllocated, heapLimit) <==> needed <= Limit(length, preAllocated, heapLimit)
    decreases heapLimit - length
  {
    if length < needed && !preAllocated {
      assert Allocation(needed, length) == Allocation(needed, 2 * length);
      if 2 * length <= heapLimit {
        assert Limit(length, preAllocated, heapLimit) == Limit(2 * length, preAllocated, heapLimit);
        assert needed <= 2 * length ==> Allocation(needed, 2 * length) == 2 * length;
        CanHoldExactly(needed, 2 * length, preAllocated, heapLimit);
      }
    }
  }

  /** And growing does not change that number: in how many steps a buffer grows makes no difference. */
  lemma {:induction false} GrowingKeepsLimit(needed: int, length: nat, preAllocated: bool, heapLimit: nat)
    requires 0 < length && !preAllocated && Allocation(needed, length) <= heapLimit
    ensures Limit(Allocation(needed, length), preAllocated, heapLimit) == Limit(length, preAllocated, heapLimit)
    decreases needed - length
  {
    if length < needed {
      GrowingKeepsLimit(needed, 2 * length, preAllocated, heapLimit);
    }
  }

  /** CalcAllocation; sizes stay within a C int. */
  method CalcAllocation(neededSize: int, allocSize: nat) returns (calcSize: nat)
    requires 0 < allocSize < TWO31 && neededSize <= SIZE_LIMIT
    ensures calcSize == Allocation(neededSize, allocSize) && calcSize < TWO31
  {
    calcSize := allocSize;
    while calcSize < neededSize
      invariant 0 < calcSize < TWO31 && Allocation(neededSize, calcSize) == Allocation(neededSize, allocSize)
      decreases neededSize - calcSize
    {
      calcSize := calcSize * 2;
    }
  }

  // ---------------------------------------------------------------- the items

  lemma ItemsGrow(btype: int, items: seq<Item>, it: Item)
    requires ItemsOk(btype, items) && ItemShaped(btype, it) && ValueOk(it.val)
    ensures ItemsOk(btype, items + [it])
  {
    var more := items + [it];
    forall k | 0 <= k < |more|
      ensures ItemShaped(btype, more[k])
    {
      if k < |items| { assert ItemShaped(btype, items[k]); }
    }
    forall k | 0 <= k < |more|
      ensures ValueOk(more[k].val)
    {
      if k < |items| {
        assert Recall(items[k]);
        assert ValueOk(items[k].val);
      } else {
        assert more[k] == it;
      }
    }
  }

  /** The item written behind what is used is the next of the container. */
  lemma Extend(btype: byte, items: seq<Item>, it: Item, used: bytes)
    requires KeyFor(btype, it.key) && KeyOk(it.key) && ValueOk(it.val)
    requires Content(btype, items).Some? && |used| >= MAX_BINN_HEADER
    requires Content(btype, items).value == used[MAX_BINN_HEADER..]
    ensures Content(btype, items + [it]).Some?
    ensures Content(btype, items + [it]).value == (used + (EncodeKey(it.key) + it.val))[MAX_BINN_HEADER..]
  {
    ItemsGrow(btype, items, it);
    LayoutSnoc(btype, items, it);
    var more := EncodeKey(it.key) + it.val;
    assert (used + (EncodeKey(it.key) + it.val))[MAX_BINN_HEADER..] == used[MAX_BINN_HEADER..] + more;
  }

  /** The bytes of a saved container. */
  lemma ReadBack(btype: byte, items: seq<Item>, saved: bytes)
    requires Content(btype, items).Some? && |Content(btype, items).value| < SIZE_LIMIT
    requires saved == Serialize(btype, items)
    ensures Serialized(saved, btype, items)
  {
  }

  /** No container of so many items and bytes of content is shorter. */
  ghost predicate ShortestFor(count: int, content: int, size: int) {
    && 0 <= count < TWO31 && 0 <= content < SIZE_LIMIT
    && forall n :: HeaderOf(count, content, n) ==> size <= content + n
  }

  lemma SerializedShortest(btype: byte, items: seq<Item>, saved: bytes)
    requires Content(btype, items).Some? && |Content(btype, items).value| < SIZE_LIMIT
    requires saved == Serialize(btype, items)
    ensures ShortestFor(|items|, |Content(btype, items).value|, |saved|)
  {
    var content := |Content(btype, items).value|;
    forall n | HeaderOf(|items|, content, n)
      ensures |saved| <= content + n
    {
      ShortestHeader(btype, |items|, content, n);
    }
  }

  /** The bytes of a well-formed container's items. */
  ghost function Content(btype: byte, items: seq<Item>): Option<bytes> {
    if IsContainer(btype) && ItemsOk(btype, items) then Some(Layout(btype, items)) else None
  }

  /** The bytes in use for the items. */
  ghost function Used(btype: byte, items: seq<Item>): nat {
    match Content(btype, items)
    case Some(content) => MAX_BINN_HEADER + |content|
    case None => MAX_BINN_HEADER
  }

  // ---------------------------------------------------------------- public types

  /** GetWriteConvertedData: the type a value is written under. */
  function ConvertType(btype: int, pvalue: Option<bytes>, size: int): Option<int>
    requires btype == BINN_BOOL && pvalue.Some? ==> |pvalue.value| >= 4
  {
    if pvalue.None? then
      if btype == BINN_NULL || btype == BINN_TRUE || btype == BINN_FALSE then Some(btype)
      else if (btype == BINN_STRING || btype == BINN_BLOB) && size == 0 then Some(btype)
      else None
    else if btype == BINN_BOOL then
      Some(if Signed(pvalue.value[..4]) == 0 then BINN_FALSE else BINN_TRUE)
    else Some(btype)
  }

  /** A truth value is written in one byte and read back as 0 or 1. */
  lemma BoolReadsBack(mem: bytes, size: int, compress: bool)
    requires 4 <= |mem| < SIZE_LIMIT && size < SIZE_LIMIT
    ensures ConvertType(BINN_BOOL, Some(mem), size).Some?
    ensures var t := ConvertType(BINN_BOOL, Some(mem), size).value;
            && Readable(t, Some(mem), size) && Emit(t, Some(mem), size, compress).Some?
            && var e := Emit(t, Some(mem), size, compress).value;
               && |e| == 1
               && GetValue(e, 0) == Some(Value(BINN_BOOL, 0, 0, StoreSigned(if Signed(mem[..4]) == 0 then 0 else 1, 4)))
  {
    WrittenValue(ConvertType(BINN_BOOL, Some(mem), size).value, Some(mem), size, compress);
  }

  // ---------------------------------------------------------------- one value

  /** A value of n bytes at mem can be written under the type. */
  predicate Writable(t: int, mem: bytes, n: nat) {
    && 0 <= t <= 0xFFFF && WriteStorage(t) != -1 && n <= |mem| && n < SIZE_LIMIT
    && (WriteStorage(t) < STRING ==> n == FixedSize(WriteStorage(t)))
  }

  /** What is written for it, field by field. */
  function Written(t: int, mem: bytes, n: nat): bytes
    requires Writable(t, mem, n)
  {
    var storage := WriteStorage(t);
    if storage == BLOB then TypeBytes(t) + Bytes32(n) + mem[..n]
    else if storage == STRING then TypeBytes(t) + Compact(n) + mem[..n] + [0]
    else if storage == CONTAINER then mem[..n]
    else TypeBytes(t) + Reverse(mem[..n])
  }

  lemma Joined(before: bytes, x: bytes, y: bytes, z: bytes)
    ensures before + x + y + z == before + (x + y + z)
    ensures before + (x + (y + z)) == before + x + y + z
    ensures before + x + y == before + (x + y)
  {
    assert before + x + y == before + (x + y);
  }

  /** What AddValue is to append and the space it is to reserve. */
  ghost predicate Planned(compress: bool, atype: int, pvalue: Option<bytes>, asize: int, e: Option<bytes>, reserved: nat) {
    && Readable(atype, pvalue, asize)
    && e == Emit(atype, pvalue, asize, compress) && reserved == Reserved(atype, pvalue, asize, compress)
  }

  /** Whatever is planned is one value and fits the space reserved for it. */
  lemma PlannedValue(compress: bool, atype: int, pvalue: Option<bytes>, asize: int, e: Option<bytes>, reserved: nat)
    requires Planned(compress, atype, pvalue, asize, e, reserved) && e.Some?
    ensures ValueOk(e.value) && |e.value| <= reserved
  {
    WrittenValue(atype, pvalue, asize, compress);
  }

  /** The first half of AddValue: whether the value is acceptable, the type it is written under, its bytes
      and the space to reserve. */
  method PlanValue(atype: int, pvalue: Option<bytes>, asize: int, compress: bool)
    returns (plan: Option<(int, bytes, nat, nat)>)
    requires Readable(atype, pvalue, asize)
    ensures plan.Some? <==> Emit(atype, pvalue, asize, compress).Some?
    ensures plan.Some? ==>
              var (t, mem, n, argSize) := plan.value;
              && Writable(t, mem, n) && Emit(atype, pvalue, asize, compress).value == Written(t, mem, n)
              && argSize == Reserved(atype, pvalue, asize, compress)
  {
    var storage := WriteStorage(atype);
    if pvalue.None? && !NullAllowed(storage, asize) { return None; }
    var mem: bytes := if pvalue.None? then [] else pvalue.value;
    var t, n := atype, asize;
    StoredFits(atype, mem, compress);
    if IsInt(t) && compress {
      t := CompressInt(t, mem);
      storage := WriteStorage(t);
    }
    var argSize;
    if storage == BLOB {
      if n < 0 { return None; }
      argSize := n + 4;
    } else if storage == STRING {
      if n < 0 { return None; }
      if n == 0 { n := StringLength(pvalue, 0); }
      argSize := n + 5;
    } else if storage == CONTAINER {
      if n <= 0 { return None; }
      argSize := n;
    } else if storage == -1 {
      return None;
    } else {
      n := FixedSize(storage);
      argSize := n;
    }
    argSize := argSize + 2;
    StoredTypeCode(atype, mem, compress);
    if storage == NOBYTES { assert TypeBytes(t) + Reverse(mem[..0]) == TypeBytes(t); }
    return Some((t, mem, n, argSize));
  }

  // ---------------------------------------------------------------- the structure

  class Binn {
    const heapLimit: nat
    var preAllocated: bool
    var pbuf: array<byte>
    var usedSize: nat
    var btype: byte
    var ptr: nat
    var size: int
    var count: nat
    var dirty: bool
    var disableIntCompression: bool
    ghost var items: seq<Item>

    /** The buffer has its nine bytes for the header and what is used lies in it. */
    ghost predicate Room()
      reads this
    {
      MAX_BINN_HEADER <= usedSize <= pbuf.Length < TWO31 && usedSize <= SIZE_LIMIT
    }

    /** The buffer holds the items behind the nine bytes; and, unless it is dirty, their header in front. */
    ghost predicate Valid()
      reads this, pbuf
    {
      && Room() && count == |items|
      && Content(btype, items).Some? && Content(btype, items).value == pbuf[..usedSize][MAX_BINN_HEADER..]
      && (!dirty ==> ptr <= MAX_BINN_HEADER && ptr + size == usedSize)
      && (!dirty ==> pbuf[..usedSize][ptr..] == Serialize(btype, items))
    }

    constructor (btype: byte, buffer: array<byte>, preAllocated: bool, heapLimit: nat)
      requires IsContainer(btype) && 0 < buffer.Length < TWO31
      ensures Valid() <==> MAX_BINN_HEADER <= buffer.Length
      ensures items == [] && this.btype == btype && dirty && !disableIntCompression && usedSize == MAX_BINN_HEADER
      ensures pbuf == buffer && this.preAllocated == preAllocated && this.heapLimit == heapLimit
    {
      this.btype, this.preAllocated, this.heapLimit := btype, preAllocated, heapLimit;
      pbuf, usedSize := buffer, MAX_BINN_HEADER;
      ptr, size, count, dirty, disableIntCompression := 0, 0, 0, true, false;
      items := [];
    }

    /** binn_create. A size of 3 to 8 is accepted, but leaves a buffer without room for its nine bytes. */
    static method Create(btype: int, size: int, pointer: array?<byte>, heapLimit: nat) returns (item: Binn?)
      requires size < SIZE_LIMIT && (pointer != null ==> pointer.Length == size)
      ensures item != null <==>
                && IsContainer(btype) && size >= 0
                && (if pointer != null then size >= 3
                    else (if size < 3 then 256 else size) <= heapLimit)
      ensures item != null ==>
                && fresh(item) && item.items == [] && item.btype == btype && item.dirty
                && !item.disableIntCompression && item.usedSize == 9
                && item.heapLimit == heapLimit && item.preAllocated == (pointer != null)
                && (if pointer != null then item.pbuf == pointer else fresh(item.pbuf))
                && item.pbuf.Length == (if size < 3 then 256 else size)
                && (item.Valid() <==> size < 3 || 9 <= size)
    {
      if !IsContainer(btype) || size < 0 { return null; }
      if pointer != null {
        if size < MIN_BINN_SIZE { return null; }
        item := new Binn(btype, pointer, true, heapLimit);
      } else {
        var alloc := if size < MIN_BINN_SIZE then CHUNK_SIZE else size;
        if alloc > heapLimit { return null; }
        var buffer := new byte[alloc];
        item := new Binn(btype, buffer, false, heapLimit);
      }
    }

    /** The size the buffer has or can come to have; it stays the same whatever is written. */
    function Capacity(): nat
      requires pbuf.Length > 0
      reads this`pbuf, this`preAllocated
    {
      Limit(pbuf.Length, preAllocated, heapLimit)
    }

    /** There is, or can be, room for so many bytes more. */
    predicate CanAdd(more: nat)
      requires pbuf.Length > 0
      reads this`pbuf, this`preAllocated, this`usedSize
    {
      usedSize + more <= Capacity()
    }

    /** CheckAllocation. What is used is kept. */
    method CheckAllocation(addSize: nat) returns (ok: bool)
      requires Room() && usedSize + addSize <= SIZE_LIMIT
      modifies this`pbuf
      ensures ok == old(CanAdd(addSize))
      ensures Room() && pbuf[..usedSize] == old(pbuf[..usedSize])
      ensures if ok then pbuf.Length == old(Allocation(usedSize + addSize, pbuf.Length)) else pbuf == old(pbuf)
      ensures (pbuf == old(pbuf) || fresh(pbuf)) && Capacity() == old(Capacity())
    {
      CanHoldExactly(usedSize + addSize, pbuf.Length, preAllocated, heapLimit);
      if usedSize + addSize > pbuf.Length {
        if preAllocated { return false; }
        var allocSize := CalcAllocation(usedSize + addSize, pbuf.Length);
        if allocSize > heapLimit { return false; }
        GrowingKeepsLimit(usedSize + addSize, pbuf.Length, preAllocated, heapLimit);
        var previous := pbuf;
        var grown := new byte[allocSize];
        forall k | 0 <= k < previous.Length {
          grown[k] := previous[k];
        }
        pbuf := grown;
      }
      return true;
    }

    /** Bytes stored at p. */
    method Poke(p: nat, e: bytes)
      requires p + |e| <= pbuf.Length
      modifies pbuf
      ensures forall k :: 0 <= k < pbuf.Length ==>
                pbuf[k] == if p <= k < p + |e| then e[k - p] else old(pbuf[k])
    {
      forall k | 0 <= k < |e| {
        pbuf[p + k] := e[k];
      }
    }

    /** Bytes stored at the end of what is used. */
    method Append(e: bytes)
      requires usedSize + |e| <= pbuf.Length
      modifies this`usedSize, pbuf
      ensures usedSize == old(usedSize) + |e|
      ensures pbuf[..usedSize] == old(pbuf[..usedSize]) + e
    {
      Poke(usedSize, e);
      usedSize := usedSize + |e|;
    }

    /** The bytes of a value of n bytes at mem, one field after the other. */
    method WriteValue(t: int, mem: bytes, n: nat)
      requires Writable(t, mem, n) && usedSize + |Written(t, mem, n)| <= pbuf.Length
      modifies this`usedSize, pbuf
      ensures usedSize == old(usedSize) + |Written(t, mem, n)|
      ensures pbuf[..usedSize] == old(pbuf[..usedSize]) + Written(t, mem, n)
    {
      ghost var before := pbuf[..usedSize];
      var storage := WriteStorage(t);
      if storage != CONTAINER { Append(TypeBytes(t)); }
      if storage == BLOB {
        Append(Bytes32(n));
        Append(mem[..n]);
        Joined(before, TypeBytes(t), Bytes32(n), mem[..n]);
      } else if storage == STRING {
        Append(Compact(n));
        Append(mem[..n]);
        Append([0]);
        Joined(before, TypeBytes(t), Compact(n), mem[..n]);
        Joined(before, TypeBytes(t) + Compact(n) + mem[..n], [0], []);
      } else if storage == CONTAINER {
        Append(mem[..n]);
      } else {
        Append(Reverse(mem[..n]));
        Joined(before, TypeBytes(t), Reverse(mem[..n]), []);
      }
    }

    /** AddValue: the bytes of the value are appended, or nothing is. The nine bytes, the key and everything
        else used before stay as they are. */
    method AddValue(atype: int, pvalue: Option<bytes>, asize: int, ghost e: Option<bytes>, ghost reserved: nat)
      returns (ok: bool)
      requires Room() && Planned(!disableIntCompression, atype, pvalue, asize, e, reserved) && usedSize + reserved <= SIZE_LIMIT
      modifies this`pbuf, this`usedSize, this`dirty, pbuf
      ensures ok == (e.Some? && old(CanAdd(reserved)))
      ensures Room() && (pbuf == old(pbuf) || fresh(pbuf)) && Capacity() == old(Capacity())
      ensures dirty == (ok || old(dirty))
      ensures ok ==> pbuf[..usedSize] == old(pbuf[..usedSize]) + e.value
      ensures !ok ==> pbuf[..usedSize] == old(pbuf[..usedSize])
    {
      var plan := PlanValue(atype, pvalue, asize, !disableIntCompression);
      if plan.None? { return false; }
      var (t, mem, n, argSize) := plan.value;
      ok := CheckAllocation(argSize);
      if !ok { return; }
      PlannedValue(!disableIntCompression, atype, pvalue, asize, e, reserved);
      WriteValue(t, mem, n);
      dirty := true;
    }

    /** A value can be added under a key: it is one that can be written, and there is room for both. */
    ghost predicate Accepts(key: Key, e: Option<bytes>, reserved: nat)
      requires pbuf.Length > 0 && KeyOk(key)
      reads this
    {
      e.Some? && CanAdd(|EncodeKey(key)| + reserved)
    }

    /** A set as a call of a run. */
    ghost function Attempt(key: Key, e: Option<bytes>, reserved: nat): Call
      requires pbuf.Length > 0 && KeyOk(key)
      reads this
    {
      if Accepts(key, e, reserved) then Put(key, e.value) else Nothing
    }

    /** The value of a list's next item is written, and the item counted. */
    method AddItem(atype: int, pvalue: Option<bytes>, asize: int, ghost e: Option<bytes>, ghost reserved: nat)
      returns (ok: bool)
      requires Valid() && btype == BINN_LIST && usedSize + reserved <= SIZE_LIMIT
      requires Planned(!disableIntCompression, atype, pvalue, asize, e, reserved)
      modifies this`pbuf, this`usedSize, this`dirty, this`count, this`items, pbuf
      ensures Valid() && (pbuf == old(pbuf) || fresh(pbuf)) && Capacity() == old(Capacity())
      ensures ok == (e.Some? && old(CanAdd(reserved)))
      ensures ok ==> items == old(items) + [Item(NoKey, e.value)] && usedSize == old(usedSize) + |e.value|
      ensures !ok ==> items == old(items) && dirty == old(dirty) && pbuf[..usedSize] == old(pbuf[..usedSize])
    {
      ghost var used := pbuf[..usedSize];
      if e.Some? {
        PlannedValue(!disableIntCompression, atype, pvalue, asize, e, reserved);
        assert EncodeKey(NoKey) + e.value == e.value;
      }
      ok := AddValue(atype, pvalue, asize, e, reserved);
      if ok { Count(NoKey, e.value, used); }
    }

    /** binn_list_add_raw. Here and below, e is what the value is written as and reserved the space it needs. */
    method ListAddRaw(atype: int, pvalue: Option<bytes>, asize: int, ghost e: Option<bytes>, ghost reserved: nat)
      returns (ok: bool)
      requires Valid() && Planned(!disableIntCompression, atype, pvalue, asize, e, reserved) && usedSize + reserved <= SIZE_LIMIT
      modifies this`pbuf, this`usedSize, this`dirty, this`count, this`items, pbuf
      ensures Valid() && (pbuf == old(pbuf) || fresh(pbuf)) && Capacity() == old(Capacity())
      ensures ok == (btype == BINN_LIST && old(Accepts(NoKey, e, reserved)))
      ensures ok ==> items == old(items) + [Item(NoKey, e.value)] && usedSize == old(usedSize) + |e.value|
      ensures !ok ==> items == old(items) && dirty == old(dirty) && pbuf[..usedSize] == old(pbuf[..usedSize])
    {
      if btype != BINN_LIST { return false; }
      ok := AddItem(atype, pvalue, asize, e, reserved);
    }

    /** The open buffer can be searched. */
    lemma Searchable()
      requires Valid()
      ensures HoldsItems(btype, pbuf[..], MAX_BINN_HEADER, usedSize, items, Starts(btype, MAX_BINN_HEADER, items))
    {
      var content := Layout(btype, items);
      assert pbuf[..][MAX_BINN_HEADER..MAX_BINN_HEADER + |content|] == content;
      HoldsIsSlice(pbuf[..], MAX_BINN_HEADER, content);
      LayOut(btype, pbuf[..], MAX_BINN_HEADER, items);
    }

    /** binn_object_set_raw: rejected when the name is taken, up to case. */
    method ObjectSetRaw(key: Option<bytes>, atype: int, pvalue: Option<bytes>, asize: int,
                        ghost e: Option<bytes>, ghost reserved: nat) returns (ok: bool)
      requires Valid() && (key.Some? ==> CString(key.value))
      requires Planned(!disableIntCompression, atype, pvalue, asize, e, reserved) && usedSize + 256 + reserved <= SIZE_LIMIT
      modifies this`pbuf, this`usedSize, this`dirty, this`count, this`items, pbuf
      ensures Valid() && (pbuf == old(pbuf) || fresh(pbuf)) && Capacity() == old(Capacity())
      ensures ok == (btype == BINN_OBJECT && key.Some? && |key.value| <= 255 &&
                     Find(old(items), Name(key.value)).None? && old(Accepts(Name(key.value), e, reserved)))
      ensures btype == BINN_OBJECT && key.Some? && |key.value| <= 255 ==>
                items == AfterCall(old(items), old(Attempt(Name(key.value), e, reserved)))
      ensures ok ==> items == old(items) + [Item(Name(key.value), e.value)]
      ensures ok ==> usedSize == old(usedSize) + 1 + |key.value| + |e.value|
      ensures !ok ==> items == old(items) && dirty == old(dirty) && pbuf[..usedSize] == old(pbuf[..usedSize])
    {
      if btype != BINN_OBJECT { return false; }
      if key.None? { return false; }
      var len := |key.value|;
      if len > 255 { return false; }
      Searchable();
      var p := SearchForKey(pbuf[..], MAX_BINN_HEADER, usedSize, count, key.value, items,
                            Starts(btype, MAX_BINN_HEADER, items));
      if p.Some? { return false; }
      ok := SetItem(Name(key.value), [len] + key.value, atype, pvalue, asize, e, reserved);
    }

    /** binn_map_set_raw: rejected when the id is taken. */
    method MapSetRaw(id: int, atype: int, pvalue: Option<bytes>, asize: int,
                     ghost e: Option<bytes>, ghost reserved: nat) returns (ok: bool)
      requires Valid() && Int32(id)
      requires Planned(!disableIntCompression, atype, pvalue, asize, e, reserved) && usedSize + 4 + reserved <= SIZE_LIMIT
      modifies this`pbuf, this`usedSize, this`dirty, this`count, this`items, pbuf
      ensures Valid() && (pbuf == old(pbuf) || fresh(pbuf)) && Capacity() == old(Capacity())
      ensures ok == (btype == BINN_MAP && Find(old(items), Id(id)).None? && old(Accepts(Id(id), e, reserved)))
      ensures btype == BINN_MAP ==> items == AfterCall(old(items), old(Attempt(Id(id), e, reserved)))
      ensures ok ==> items == old(items) + [Item(Id(id), e.value)]
      ensures ok ==> usedSize == old(usedSize) + 4 + |e.value|
      ensures !ok ==> items == old(items) && dirty == old(dirty) && pbuf[..usedSize] == old(pbuf[..usedSize])
    {
      if btype != BINN_MAP { return false; }
      Searchable();
      var p := SearchForID(pbuf[..], MAX_BINN_HEADER, usedSize, count, id, items, Starts(btype, MAX_BINN_HEADER, items));
      if p.Some? { return false; }
      ok := SetItem(Id(id), Bytes32(Unsigned32(id)), atype, pvalue, asize, e, reserved);
    }

    /** The bytes of a key, if there is room for them. */
    method WriteKey(keyBytes: bytes) returns (ok: bool)
      requires Room() && usedSize + |keyBytes| <= SIZE_LIMIT
      modifies this`pbuf, this`usedSize, pbuf
      ensures Room() && (pbuf == old(pbuf) || fresh(pbuf)) && Capacity() == old(Capacity())
      ensures ok == old(CanAdd(|keyBytes|))
      ensures usedSize == old(usedSize) + if ok then |keyBytes| else 0
      ensures ok ==> pbuf[..usedSize] == old(pbuf[..usedSize]) + keyBytes
      ensures !ok ==> pbuf[..usedSize] == old(pbuf[..usedSize])
    {
      ok := CheckAllocation(|keyBytes|);
      if ok { Append(keyBytes); }
    }

    /** Bytes are unused again. */
    method TakeBack(ghost used: bytes, n: nat)
      requires Room() && |used| + n == usedSize && |used| >= MAX_BINN_HEADER && used <= pbuf[..usedSize]
      modifies this`usedSize
      ensures Room() && pbuf[..usedSize] == used
    {
      ghost var was := pbuf[..usedSize];
      usedSize := usedSize - n;
      assert pbuf[..usedSize] == was[..usedSize];
    }

    /** What the two setters do once the key is known to be free: write the key, then the value, and take the
        key back when the value is refused. */
    method WriteItem(keyBytes: bytes, atype: int, pvalue: Option<bytes>, asize: int,
                     ghost e: Option<bytes>, ghost reserved: nat) returns (ok: bool)
      requires Room() && Planned(!disableIntCompression, atype, pvalue, asize, e, reserved)
      requires usedSize + |keyBytes| + reserved <= SIZE_LIMIT
      modifies this`pbuf, this`usedSize, this`dirty, pbuf
      ensures Room() && (pbuf == old(pbuf) || fresh(pbuf)) && Capacity() == old(Capacity())
      ensures ok == (e.Some? && old(CanAdd(|keyBytes| + reserved)))
      ensures dirty == (ok || old(dirty))
      ensures ok ==> pbuf[..usedSize] == old(pbuf[..usedSize]) + (keyBytes + e.value)
      ensures !ok ==> pbuf[..usedSize] == old(pbuf[..usedSize])
    {
      ghost var used := pbuf[..usedSize];
      ok := WriteKey(keyBytes);
      if !ok { return; }
      ok := AddValue(atype, pvalue, asize, e, reserved);
      if ok {
        Joined(used, keyBytes, e.value, []);
      } else {
        TakeBack(used, |keyBytes|);
      }
    }

    /** Likewise, and the item is counted. */
    method SetItem(ghost key: Key, keyBytes: bytes, atype: int, pvalue: Option<bytes>, asize: int,
                   ghost e: Option<bytes>, ghost reserved: nat) returns (ok: bool)
      requires Valid() && KeyFor(btype, key) && KeyOk(key) && keyBytes == EncodeKey(key)
      requires Planned(!disableIntCompression, atype, pvalue, asize, e, reserved)
      requires usedSize + |keyBytes| + reserved <= SIZE_LIMIT
      modifies this`pbuf, this`usedSize, this`dirty, this`count, this`items, pbuf
      ensures Valid() && (pbuf == old(pbuf) || fresh(pbuf)) && Capacity() == old(Capacity())
      ensures ok == old(Accepts(key, e, reserved))
      ensures ok ==> items == old(items) + [Item(key, e.value)]
      ensures ok ==> usedSize == old(usedSize) + |keyBytes| + |e.value|
      ensures !ok ==> items == old(items) && dirty == old(dirty) && pbuf[..usedSize] == old(pbuf[..usedSize])
    {
      ghost var used := pbuf[..usedSize];
      ghost var accepts := Accepts(key, e, reserved);
      assert accepts == (e.Some? && CanAdd(|keyBytes| + reserved));
      ok := WriteItem(keyBytes, atype, pvalue, asize, e, reserved);
      if ok {
        PlannedValue(!disableIntCompression, atype, pvalue, asize, e, reserved);
        Count(key, e.value, used);
      }
    }

    /** The item written behind what was used is counted. */
    method Count(ghost key: Key, ghost e: bytes, ghost used: bytes)
      requires Room() && count == |items| && dirty
      requires Content(btype, items).Some? && |used| >= MAX_BINN_HEADER
      requires Content(btype, items).value == used[MAX_BINN_HEADER..]
      requires KeyFor(btype, key) && KeyOk(key) && ValueOk(e) && pbuf[..usedSize] == used + (EncodeKey(key) + e)
      modifies this`count, this`items
      ensures Valid() && items == old(items) + [Item(key, e)]
    {
      Extend(btype, items, Item(key, e), used);
      count := count + 1;
      items := items + [Item(key, e)];
    }

    /** A compact number written so that it ends at end. */
    method PutBack(n: int, end: nat) returns (p: nat)
      requires Room() && 0 <= n < TWO31 && |Compact(n)| <= end <= MAX_BINN_HEADER
      modifies pbuf
      ensures p + |Compact(n)| == end
      ensures pbuf[..usedSize][p..] == Compact(n) + old(pbuf[..usedSize][end..])
    {
      if n > 127 {
        p := end - 4;
        Poke(p, Bytes32(n + TWO31));
      } else {
        p := end - 1;
        Poke(p, [n]);
      }
    }

    /** The type in front of what ends the header. */
    method PutType(end: nat) returns (p: nat)
      requires Room() && 1 <= end <= MAX_BINN_HEADER
      modifies pbuf
      ensures p + 1 == end && pbuf[..usedSize][p..] == [btype] + old(pbuf[..usedSize][end..])
    {
      p := end - 1;
      pbuf[p] := btype;
    }

    /** binn_save_header: the header is written backwards from the content, into the nine bytes. */
    method WriteHeader()
      requires Room() && count < TWO31
      modifies this`ptr, this`size, this`dirty, pbuf
      ensures !dirty && ptr + HeaderLength(count, usedSize - MAX_BINN_HEADER) == MAX_BINN_HEADER && ptr + size == usedSize
      ensures var content := old(pbuf[..usedSize][MAX_BINN_HEADER..]);
              pbuf[..usedSize][ptr..] == EncodeHeader(btype, count, |content|) + content
    {
      ghost var content := pbuf[..usedSize][MAX_BINN_HEADER..];
      var p := MAX_BINN_HEADER;
      var n := usedSize - MAX_BINN_HEADER + 3;
      if count > 127 { n := n + 3; }
      p := PutBack(count, p);
      if n > 127 { n := n + 3; }
      p := PutBack(n, p);
      p := PutType(p);
      Joined([btype], Compact(n), Compact(count), content);
      ptr, size := p, n;
      dirty := false;
    }

    /** After which the bytes from ptr are the serialized container. */
    method SaveHeader()
      requires Valid()
      modifies this`ptr, this`size, this`dirty, pbuf
      ensures Valid() && !dirty
      ensures pbuf[..usedSize][MAX_BINN_HEADER..] == old(pbuf[..usedSize][MAX_BINN_HEADER..])
    {
      ghost var content := pbuf[..usedSize][MAX_BINN_HEADER..];
      WriteHeader();
      ghost var used := pbuf[..usedSize];
      assert used[MAX_BINN_HEADER..] == used[ptr..][MAX_BINN_HEADER - ptr..] == content;
    }

    /** binn_ptr and binn_size: where the serialized container lies, which is as short as it can be. */
    method Ptr() returns (p: nat)
      requires Valid()
      modifies this`ptr, this`size, this`dirty, pbuf
      ensures Valid() && !dirty && p == ptr && Serialized(pbuf[..usedSize][p..], btype, items)
      ensures pbuf[..usedSize][MAX_BINN_HEADER..] == old(pbuf[..usedSize][MAX_BINN_HEADER..])
      ensures size == usedSize - p && ShortestFor(count, usedSize - MAX_BINN_HEADER, size)
    {
      if dirty { SaveHeader(); }
      p := ptr;
      SerializedShortest(btype, items, pbuf[..usedSize][p..]);
      ReadBack(btype, items, pbuf[..usedSize][p..]);
    }

    /** binn_object_get_value of the structure being written: the header is saved first. */
    method ObjectGet(key: bytes) returns (r: Option<Value>)
      requires Valid() && CString(key)
      modifies this`ptr, this`size, this`dirty, pbuf
      ensures Valid() && !dirty
      ensures r == if btype == BINN_OBJECT then Lookup(items, Name(key)) else None
    {
      var p := Ptr();
      r := ObjectGetValue(pbuf[..usedSize][p..], key, btype, items);
    }

    /** binn_map_get_value, likewise. */
    method MapGet(id: int) returns (r: Option<Value>)
      requires Valid()
      modifies this`ptr, this`size, this`dirty, pbuf
      ensures Valid() && !dirty
      ensures r == if btype == BINN_MAP then Lookup(items, Id(id)) else None
    {
      var p := Ptr();
      r := MapGetValue(pbuf[..usedSize][p..], id, btype, items);
    }

    /** binn_object_set: the raw setter on the converted type. */
    method ObjectSet(key: Option<bytes>, atype: int, pvalue: Option<bytes>, asize: int,
                     ghost e: Option<bytes>, ghost reserved: nat) returns (ok: bool)
      requires Valid() && (key.Some? ==> CString(key.value))
      requires atype == BINN_BOOL && pvalue.Some? ==> |pvalue.value| >= 4
      requires var t := ConvertType(atype, pvalue, asize);
               if t.Some? then Planned(!disableIntCompression, t.value, pvalue, asize, e, reserved) else e == None
      requires usedSize + 256 + reserved <= SIZE_LIMIT
      modifies this`pbuf, this`usedSize, this`dirty, this`count, this`items, pbuf
      ensures Valid() && (pbuf == old(pbuf) || fresh(pbuf)) && Capacity() == old(Capacity())
      ensures ok == (btype == BINN_OBJECT && key.Some? && |key.value| <= 255 &&
                     Find(old(items), Name(key.value)).None? && old(Accepts(Name(key.value), e, reserved)))
      ensures ok ==> items == old(items) + [Item(Name(key.value), e.value)]
      ensures ok ==> usedSize == old(usedSize) + 1 + |key.value| + |e.value|
      ensures !ok ==> items == old(items) && dirty == old(dirty) && pbuf[..usedSize] == old(pbuf[..usedSize])
    {
      var t := ConvertType(atype, pvalue, asize);
      if t.None? { return false; }
      ok := ObjectSetRaw(key, t.value, pvalue, asize, e, reserved);
    }
  }
}
