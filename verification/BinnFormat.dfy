/** The Binn wire format: what is written for a value, how a value is skipped, read and narrowed, and the
    header of a container. All positions are offsets into a block of memory; a function that would have to
    read outside its block has no result. */
module BinnFormat {
  import opened Bytes

  // storage classes, the top three bits of a type's first byte
  const NOBYTES := 0x00
  const BYTE := 0x20
  const WORD := 0x40
  const DWORD := 0x60
  const QWORD := 0x80
  const STRING := 0xA0
  const BLOB := 0xC0
  const CONTAINER := 0xE0

  const BINN_LIST := 0xE0
  const BINN_MAP := 0xE1
  const BINN_OBJECT := 0xE2

  const BINN_NULL := 0x00
  const BINN_TRUE := 0x01
  const BINN_FALSE := 0x02
  const BINN_BOOL := 0x80061

  const BINN_UINT8 := 0x20
  const BINN_INT8 := 0x21
  const BINN_UINT16 := 0x40
  const BINN_INT16 := 0x41
  const BINN_UINT32 := 0x60
  const BINN_INT32 := 0x61
  const BINN_UINT64 := 0x80
  const BINN_INT64 := 0x81

  const BINN_STRING := 0xA0
  const BINN_BLOB := 0xC0

  const MAX_BINN_HEADER := 9
  const MIN_BINN_SIZE := 3

  /** Sizes stay below this. */
  const SIZE_LIMIT := 0x4000_0000

  /** `byte & BINN_STORAGE_MASK` */
  function StorageOf(b: byte): int {
    b / 0x20 * 0x20
  }

  /** `byte & BINN_STORAGE_HAS_MORE` */
  predicate HasMore(b: byte) {
    b / 0x10 % 2 == 1
  }

  /** The storage class of a type, as binn_get_type_info finds it; -1 for no type. */
  function WriteStorage(btype: int): int {
    if btype < 0 then -1
    else if btype <= 0xFF then StorageOf(btype)
    else if btype <= 0xFFFF then StorageOf(btype / 0x100)
    else if btype / 0x80000 % 2 == 1 then
      var low := btype % TWO16;
      if low <= 0xFF then StorageOf(low) else StorageOf(low / 0x100)
    else -1
  }

  /** A type code the writer may be given: one byte without the continuation bit, two bytes with it, or a
      number that is no type at all, which is refused. Virtual types are converted before. */
  predicate TypeCode(btype: int) {
    || (0 <= btype <= 0xFF && !HasMore(btype))
    || (0x100 <= btype <= 0xFFFF && HasMore(btype / 0x100))
    || WriteStorage(btype) == -1
  }

  predicate IsSigned(btype: int) {
    btype == BINN_INT8 || btype == BINN_INT16 || btype == BINN_INT32 || btype == BINN_INT64
  }

  predicate IsInt(btype: int) {
    IsSigned(btype) || btype == BINN_UINT8 || btype == BINN_UINT16 || btype == BINN_UINT32 || btype == BINN_UINT64
  }

  predicate IsContainer(btype: int) {
    btype == BINN_LIST || btype == BINN_MAP || btype == BINN_OBJECT
  }

  /** Bytes of a storage class of fixed size. */
  function FixedSize(storage: int): nat {
    if storage == BYTE then 1
    else if storage == WORD then 2
    else if storage == DWORD then 4
    else if storage == QWORD then 8
    else 0
  }

  // ---------------------------------------------------------------- bytes at a place

  /** The bytes at p are those of e. */
  predicate Holds(b: bytes, p: nat, e: bytes) {
    p + |e| <= |b| && forall k :: 0 <= k < |e| ==> e[k] == b[p + k]
  }

  lemma HoldsIsSlice(b: bytes, p: nat, e: bytes)
    requires p + |e| <= |b|
    ensures Holds(b, p, e) <==> b[p..p + |e|] == e
  {
    if Holds(b, p, e) {
      assert b[p..p + |e|] == e;
    } else {
      var k :| 0 <= k < |e| && e[k] != b[p + k];
      assert b[p..p + |e|][k] != e[k];
    }
  }

  lemma HoldsPart(b: bytes, p: nat, e: bytes, k: nat, n: nat)
    requires Holds(b, p, e) && k + n <= |e|
    ensures Holds(b, p + k, e[k..k + n])
  {
  }

  lemma HoldsTwo(b: bytes, p: nat, x: bytes, y: bytes)
    ensures Holds(b, p, x + y) <==> Holds(b, p, x) && Holds(b, p + |x|, y)
  {
    var all := x + y;
    if Holds(b, p, x + y) {
      assert forall k :: 0 <= k < |x| ==> x[k] == all[k];
      assert forall k :: 0 <= k < |y| ==> y[k] == all[|x| + k];
    } else if p + |all| <= |b| {
      var k :| 0 <= k < |all| && all[k] != b[p + k];
      if k < |x| { assert x[k] == all[k]; } else { assert y[k - |x|] == all[k]; }
    }
  }

  lemma Word32At(b: bytes, p: nat, n: int)
    requires 0 <= n < TWO32 && Holds(b, p, Bytes32(n))
    ensures Word32(b, p) == n
  {
    var c := Bytes32(n);
    assert c[0] == b[p] && c[1] == b[p + 1] && c[2] == b[p + 2] && c[3] == b[p + 3];
    assert Word32(b, p) == Word32(c, 0);
  }

  // ---------------------------------------------------------------- the header of a container

  /** A size or count: one byte below 128, else four with the top bit set. */
  function Compact(n: int): (b: bytes)
    requires 0 <= n < TWO31
    ensures |b| == if n > 127 then 4 else 1
    ensures b[0] >= 128 <==> n > 127
  {
    if n > 127 then Bytes32(n + TWO31) else [n]
  }

  /** In four bytes it has the top bit set, and the others are those of the number. */
  lemma CompactBytes(n: int)
    requires 0 <= n < TWO31
    ensures var b := Compact(n);
            if n <= 127 then b == [n]
            else
              && |b| == 4 && b[0] >= 128
              && n == (b[0] as int - 128) * 0x100_0000 + b[1] as int * 0x1_0000 + b[2] as int * 0x100 + b[3] as int
  {
  }

  /** The length the header will have, count and size being as long as they need. */
  function HeaderLength(count: int, content: int): (n: int)
    ensures n == 3 || n == 6 || n == 9
  {
    var n := if count > 127 then 6 else 3;
    if content + n > 127 then n + 3 else n
  }

  /** The header of a container of the given number of items and bytes of content. */
  function EncodeHeader(btype: byte, count: int, content: int): (h: bytes)
    requires 0 <= count < TWO31 && 0 <= content < SIZE_LIMIT
    ensures |h| == HeaderLength(count, content) <= MAX_BINN_HEADER
  {
    [btype] + Compact(content + HeaderLength(count, content)) + Compact(count)
  }

  /** A header of n bytes can be written: its size and count take what is left after the type. */
  predicate HeaderOf(count: int, content: int, n: int)
    requires 0 <= count < TWO31 && 0 <= content < SIZE_LIMIT
  {
    0 <= n <= MAX_BINN_HEADER && n == 1 + |Compact(content + n)| + |Compact(count)|
  }

  /** The header is the shortest there is, of 3, 6 or 9 bytes. */
  lemma ShortestHeader(btype: byte, count: int, content: int, n: int)
    requires 0 <= count < TWO31 && 0 <= content < SIZE_LIMIT
    ensures HeaderOf(count, content, |EncodeHeader(btype, count, content)|)
    ensures HeaderOf(count, content, n) ==> |EncodeHeader(btype, count, content)| <= n
    ensures |EncodeHeader(btype, count, content)| == 3 <==> count <= 127 && content <= 124
    ensures |EncodeHeader(btype, count, content)| == 9 <==> count >= 128 && content >= 122
  {
  }

  /** A compact number at p and where it ends. */
  function ReadCompact(b: bytes, p: nat): (r: Option<(nat, nat)>) {
    if p >= |b| then None
    else if b[p] < 128 then Some((b[p] as nat, p + 1))
    else if p + 4 <= |b| then Some((Word32(b, p) % TWO31, p + 4))
    else None
  }

  datatype Header = Header(btype: int, count: int, size: int, headerSize: int)

  /** IsValidBinnHeader. */
  function ParseHeader(b: bytes, p: nat): Option<Header> {
    if p >= |b| || !IsContainer(b[p]) then None
    else
      match ReadCompact(b, p + 1)
      case None => None
      case Some((size, q)) =>
        match ReadCompact(b, q)
        case None => None
        case Some((count, r)) =>
          if size < MIN_BINN_SIZE then None else Some(Header(b[p], count, size, r - p))
  }

  lemma CompactRoundTrip(b: bytes, p: nat, n: int)
    requires 0 <= n < TWO31 && Holds(b, p, Compact(n))
    ensures ReadCompact(b, p) == Some((n, p + |Compact(n)|))
  {
    assert Compact(n)[0] == b[p];
    if n > 127 {
      Word32At(b, p, n + TWO31);
    }
  }

  lemma HeaderParts(b: bytes, p: nat, btype: byte, count: int, content: int)
    requires 0 <= count < TWO31 && 0 <= content < SIZE_LIMIT && Holds(b, p, EncodeHeader(btype, count, content))
    ensures var s := Compact(content + HeaderLength(count, content));
            b[p] == btype && Holds(b, p + 1, s) && Holds(b, p + 1 + |s|, Compact(count))
  {
    var s, c := Compact(content + HeaderLength(count, content)), Compact(count);
    HoldsTwo(b, p, [btype] + s, c);
    HoldsTwo(b, p, [btype], s);
    assert [btype][0] == b[p];
  }

  /** The parser recovers what the header says, in all four combinations of short and long fields. */
  lemma HeaderRoundTrip(b: bytes, p: nat, btype: byte, count: int, content: int)
    requires IsContainer(btype) && 0 <= count < TWO31 && 0 <= content < SIZE_LIMIT
    requires Holds(b, p, EncodeHeader(btype, count, content))
    ensures var n := HeaderLength(count, content);
            ParseHeader(b, p) == Some(Header(btype, count, content + n, n))
  {
    HeaderParts(b, p, btype, count, content);
    var size := content + HeaderLength(count, content);
    CompactRoundTrip(b, p + 1, size);
    CompactRoundTrip(b, p + 1 + |Compact(size)|, count);
  }

  // ---------------------------------------------------------------- skipping a value

  /** AdvanceDataPos: the position after the value at p. */
  function AdvanceDataPos(b: bytes, p: nat): Option<int> {
    if p >= |b| then None
    else
      var q := if HasMore(b[p]) then p + 2 else p + 1;
      var storage := StorageOf(b[p]);
      if storage == BLOB then
        if q + 4 <= |b| then Some(q + 4 + Signed32(Word32(b, q))) else None
      else if storage == CONTAINER then
        match ReadCompact(b, q)
        case None => None
        case Some((size, _)) => Some(q + size - 1)
      else if storage == STRING then
        match ReadCompact(b, q)
        case None => None
        case Some((size, r)) => Some(r + size + 1)
      else Some(q + FixedSize(storage))
  }

  /** e is one value: skipping from its start lands exactly on its end. */
  predicate IsValue(e: bytes) {
    |e| > 0 && AdvanceDataPos(e, 0) == Some(|e|)
  }

  lemma HoldsAt(b: bytes, p: nat, e: bytes, k: nat)
    requires Holds(b, p, e) && k < |e|
    ensures b[p + k] == e[k]
    ensures k + 4 <= |e| ==> Word32(b, p + k) == Word32(e, k)
  {
    if k + 4 <= |e| {
      assert e[k + 1] == b[p + (k + 1)] && e[k + 2] == b[p + (k + 2)] && e[k + 3] == b[p + (k + 3)];
    }
  }

  lemma ReadCompactAt(b: bytes, p: nat, e: bytes, k: nat)
    requires Holds(b, p, e) && ReadCompact(e, k).Some?
    ensures ReadCompact(b, p + k) == Some((ReadCompact(e, k).value.0, p + ReadCompact(e, k).value.1))
  {
    HoldsAt(b, p, e, k);
  }

  /** A value is skipped the same way wherever it lies. */
  lemma SkipAt(b: bytes, p: nat, e: bytes)
    requires Holds(b, p, e) && IsValue(e)
    ensures AdvanceDataPos(b, p) == Some(p + |e|)
  {
    HoldsAt(b, p, e, 0);
    var q := if HasMore(e[0]) then 2 else 1;
    var storage := StorageOf(e[0]);
    if storage == BLOB {
      HoldsAt(b, p, e, q);
    } else if storage == CONTAINER || storage == STRING {
      ReadCompactAt(b, p, e, q);
    }
  }

  // ---------------------------------------------------------------- reading a value

  /** What GetValue returns: the type, size and count it sets, and the bytes its pointer designates (in host
      order for the integers it converts). */
  datatype Value = Value(btype: int, size: int, count: int, data: bytes)

  function Slice(b: bytes, p: nat, size: int): Option<bytes> {
    if 0 <= size && p + size <= |b| then Some(b[p..p + size]) else None
  }

  function WithData(btype: int, size: int, count: int, data: Option<bytes>): Option<Value> {
    match data
    case None => None
    case Some(d) => Some(Value(btype, size, count, d))
  }

  /** GetValue: the value at p. */
  function GetValue(b: bytes, p: nat): Option<Value> {
    if p >= |b| || (HasMore(b[p]) && p + 1 >= |b|) then None
    else
      var q := if HasMore(b[p]) then p + 2 else p + 1;
      var btype: int := if HasMore(b[p]) then b[p] as int * 0x100 + b[p + 1] as int else b[p];
      var storage := StorageOf(b[p]);
      if storage == BLOB then
        if q + 4 <= |b| then
          var size := Signed32(Word32(b, q));
          WithData(btype, size, 0, Slice(b, q + 4, size))
        else None
      else if storage == CONTAINER then
        match ParseHeader(b, p)
        case None => None
        case Some(h) => WithData(btype, h.size, h.count, Slice(b, p, h.size))
      else if storage == STRING then
        match ReadCompact(b, q)
        case None => None
        case Some((size, r)) => WithData(btype, size, 0, Slice(b, r, size))
      else if btype == BINN_TRUE then Some(Value(BINN_BOOL, 0, 0, StoreSigned(1, 4)))
      else if btype == BINN_FALSE then Some(Value(BINN_BOOL, 0, 0, StoreSigned(0, 4)))
      else
        match Slice(b, q, FixedSize(storage))
        case None => None
        case Some(raw) => Some(Value(btype, 0, 0, Reverse(raw)))
  }

  lemma SliceAt(b: bytes, p: nat, e: bytes, k: nat, size: int)
    requires Holds(b, p, e) && Slice(e, k, size).Some?
    ensures Slice(b, p + k, size) == Slice(e, k, size)
  {
    HoldsPart(b, p, e, k, size);
    HoldsIsSlice(b, p + k, e[k..k + size]);
  }

  lemma ParseHeaderAt(b: bytes, p: nat, e: bytes)
    requires Holds(b, p, e) && ParseHeader(e, 0).Some?
    ensures ParseHeader(b, p) == ParseHeader(e, 0)
  {
    HoldsAt(b, p, e, 0);
    ReadCompactAt(b, p, e, 1);
    ReadCompactAt(b, p, e, ReadCompact(e, 1).value.1);
  }

  lemma BlobAt(b: bytes, p: nat, e: bytes)
    requires Holds(b, p, e) && GetValue(e, 0).Some? && StorageOf(e[0]) == BLOB
    ensures GetValue(b, p) == GetValue(e, 0)
  {
    var q := if HasMore(e[0]) then 2 else 1;
    HoldsAt(b, p, e, 0);
    if HasMore(e[0]) { HoldsAt(b, p, e, 1); }
    HoldsAt(b, p, e, q);
    SliceAt(b, p, e, q + 4, Signed32(Word32(e, q)));
  }

  lemma ContainerAt(b: bytes, p: nat, e: bytes)
    requires Holds(b, p, e) && GetValue(e, 0).Some? && StorageOf(e[0]) == CONTAINER
    ensures GetValue(b, p) == GetValue(e, 0)
  {
    HoldsAt(b, p, e, 0);
    if HasMore(e[0]) { HoldsAt(b, p, e, 1); }
    ParseHeaderAt(b, p, e);
    SliceAt(b, p, e, 0, ParseHeader(e, 0).value.size);
  }

  lemma StringAt(b: bytes, p: nat, e: bytes)
    requires Holds(b, p, e) && GetValue(e, 0).Some? && StorageOf(e[0]) == STRING
    ensures GetValue(b, p) == GetValue(e, 0)
  {
    var q := if HasMore(e[0]) then 2 else 1;
    HoldsAt(b, p, e, 0);
    if HasMore(e[0]) { HoldsAt(b, p, e, 1); }
    ReadCompactAt(b, p, e, q);
    SliceAt(b, p, e, ReadCompact(e, q).value.1, ReadCompact(e, q).value.0);
  }

  lemma FixedAt(b: bytes, p: nat, e: bytes)
    requires Holds(b, p, e) && GetValue(e, 0).Some? && StorageOf(e[0]) < STRING
    ensures GetValue(b, p) == GetValue(e, 0)
  {
    HoldsAt(b, p, e, 0);
    if HasMore(e[0]) { HoldsAt(b, p, e, 1); }
    if GetValue(e, 0).value.btype != BINN_BOOL {
      SliceAt(b, p, e, if HasMore(e[0]) then 2 else 1, FixedSize(StorageOf(e[0])));
    }
  }

  /** A value reads the same wherever it lies. */
  lemma GetValueAt(b: bytes, p: nat, e: bytes)
    requires Holds(b, p, e) && GetValue(e, 0).Some?
    ensures GetValue(b, p) == GetValue(e, 0)
  {
    var storage := StorageOf(e[0]);
    if storage == BLOB {
      BlobAt(b, p, e);
    } else if storage == CONTAINER {
      ContainerAt(b, p, e);
    } else if storage == STRING {
      StringAt(b, p, e);
    } else {
      FixedAt(b, p, e);
    }
  }
}
