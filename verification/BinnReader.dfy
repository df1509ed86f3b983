/** The readers of a container: by name, by id, by position, one after the other, and the validity check.
    Each walks the bytes; each is proved to return what the items say. Blocks of memory are byte sequences
    and pointers are offsets into them. */
module BinnReader {
  import opened Bytes
  import opened BinnFormat
  import opened BinnContainer

  /** strnicmp(p, key, n) == 0, where key is a C string: its end differs from every byte of a name. */
  method StrNICmpEqual(b: bytes, p: nat, key: bytes, n: nat) returns (equal: bool)
    requires p + n <= |b| && CString(b[p..p + n]) && CString(key)
    ensures equal <==> n <= |key| && SameName(b[p..p + n], key[..n])
  {
    var j := 0;
    while j < n
      invariant 0 <= j <= n && j <= |key|
      invariant forall k :: 0 <= k < j ==> Fold(b[p + k]) == Fold(key[k])
    {
      assert b[p + j] == b[p..p + n][j];
      var c := if j < |key| then key[j] else 0;
      if Fold(b[p + j]) != Fold(c) {
        if n <= |key| { assert FoldAll(b[p..p + n])[j] != FoldAll(key[..n])[j]; }
        return false;
      }
      j := j + 1;
    }
    assert FoldAll(b[p..p + n]) == FoldAll(key[..n]);
    return true;
  }

  /** The name of n bytes at p is the key: strnicmp over n bytes, then the lengths. */
  method NameIs(b: bytes, p: nat, n: nat, key: bytes) returns (same: bool)
    requires p + n <= |b| && CString(b[p..p + n]) && CString(key)
    ensures same <==> SameName(b[p..p + n], key)
  {
    same := StrNICmpEqual(b, p, key, n);
    if |key| == n { assert key[..n] == key; }
    return same && |key| == n;
  }

  /** The items lie in b at the given places, from start to end, and are well formed. */
  ghost predicate HoldsItems(btype: int, b: bytes, start: nat, end: nat, items: seq<Item>, starts: seq<nat>) {
    && ItemsOk(btype, items) && Laid(btype, b, items, starts)
    && starts[0] == start && starts[|items|] == end
  }

  lemma NameAt(b: bytes, p: nat, it: Item, q: nat)
    requires AtItem(b, p, it, q) && it.key.Name?
    ensures var n := |it.key.name|;
            && p + 1 + n < q <= |b| && b[p] == n && b[p + 1..p + 1 + n] == it.key.name
            && ValueStart(p, it) == p + 1 + n
  {
    var n := |it.key.name|;
    var k := EncodeKey(it.key);
    assert k[0] == b[p];
    forall j | 0 <= j < n
      ensures b[p + 1..p + 1 + n][j] == it.key.name[j]
    {
      assert k[1 + j] == b[p + (1 + j)];
    }
  }

  /** Only the last item ends at the end. */
  lemma EndsBefore(btype: int, b: bytes, items: seq<Item>, starts: seq<nat>, i: nat)
    requires Laid(btype, b, items, starts) && i < |items|
    ensures starts[i + 1] == starts[|items|] <==> i + 1 == |items|
    ensures starts[i + 1] <= starts[|items|]
  {
    assert LaidAt(btype, b, items, starts, i);
    if i + 1 < |items| { assert LaidAt(btype, b, items, starts, i + 1); }
  }

  /** A name of the length of the first byte is compared; an empty one by its length alone. */
  method SameAsKey(b: bytes, p: nat, len: nat, key: bytes) returns (same: bool)
    requires p + len <= |b| && CString(b[p..p + len]) && CString(key)
    ensures same <==> SameName(b[p..p + len], key)
  {
    if len > 0 {
      same := NameIs(b, p, len, key);
    } else {
      same := len == |key|;
      if same { assert b[p..p + len] == key; }
    }
  }

  /** The key of one item of an object is read and compared; v is where its value starts. */
  method ReadName(b: bytes, p: nat, key: bytes, ghost it: Item, ghost q: nat) returns (same: bool, v: nat)
    requires AtItem(b, p, it, q) && it.key.Name? && CString(key)
    ensures v == ValueStart(p, it) && p + 1 <= v < q
    ensures same <==> SameKey(it.key, Name(key))
  {
    NameAt(b, p, it, q);
    var len := b[p];
    v := p + 1 + len;
    same := SameAsKey(b, p + 1, len, key);
  }

  /** The same of item i. */
  method ReadNameOf(b: bytes, p: nat, key: bytes, ghost start: nat, ghost size: nat,
                    ghost items: seq<Item>, ghost starts: seq<nat>, ghost i: nat) returns (same: bool, v: nat)
    requires CString(key) && i < |items| && HoldsItems(BINN_OBJECT, b, start, size, items, starts) && p == starts[i]
    ensures v == ValueStart(p, items[i]) && p + 1 <= v < starts[i + 1] <= size
    ensures same <==> SameKey(items[i].key, Name(key))
  {
    assert LaidAt(BINN_OBJECT, b, items, starts, i);
    EndsBefore(BINN_OBJECT, b, items, starts, i);
    same, v := ReadName(b, p, key, items[i], starts[i + 1]);
  }

  /** Past the value of item i lies the next item; past the last one, the end. */
  lemma PastItem(btype: int, b: bytes, start: nat, size: nat, items: seq<Item>, starts: seq<nat>, i: nat)
    requires i < |items| && HoldsItems(btype, b, start, size, items, starts)
    ensures KeyOk(items[i].key) && AdvanceDataPos(b, ValueStart(starts[i], items[i])) == Some(starts[i + 1])
    ensures starts[i + 1] <= size && (starts[i + 1] == size <==> i + 1 == |items|)
  {
    assert LaidAt(btype, b, items, starts, i);
    EndsBefore(btype, b, items, starts, i);
    SkipItem(btype, b, ValueStart(starts[i], items[i]), items, i);
  }

  /** None of the first n items is under the key. */
  predicate NoneUnder(items: seq<Item>, key: Key, n: nat)
    requires n <= |items|
  {
    n == 0 || (NoneUnder(items, key, n - 1) && !SameKey(items[n - 1].key, key))
  }

  lemma {:induction false} NoneUnderIs(items: seq<Item>, key: Key, n: nat)
    requires n <= |items| && NoneUnder(items, key, n)
    ensures forall j :: 0 <= j < n ==> !SameKey(items[j].key, key)
  {
    if n > 0 { NoneUnderIs(items, key, n - 1); }
  }

  lemma FoundFirst(items: seq<Item>, key: Key, i: nat)
    requires i <= |items| && NoneUnder(items, key, i) && (i < |items| ==> SameKey(items[i].key, key))
    ensures Find(items, key) == if i < |items| then Some(i) else None
  {
    NoneUnderIs(items, key, i);
    if i < |items| { FindIs(items, key, i); }
  }

  /** The loop of SearchForKey. */
  method WalkNames(b: bytes, headerSize: nat, size: nat, numItems: nat, key: bytes,
                   ghost items: seq<Item>, ghost starts: seq<nat>) returns (r: Option<nat>, ghost at: nat)
    requires CString(key) && HoldsItems(BINN_OBJECT, b, headerSize, size, items, starts) && numItems == |items|
    ensures at <= |items| && NoneUnder(items, Name(key), at)
    ensures at < |items| ==> SameKey(items[at].key, Name(key))
    ensures at < |items| ==> KeyOk(items[at].key) && r == Some(ValueStart(starts[at], items[at]))
    ensures at == |items| ==> r == None
  {
    var plimit := size - 1;
    var p := headerSize;
    var i := 0;
    while i < numItems
      invariant 0 <= i <= numItems && p == starts[i] && NoneUnder(items, Name(key), i)
    {
      PastItem(BINN_OBJECT, b, headerSize, size, items, starts, i);
      var same, v := ReadNameOf(b, p, key, headerSize, size, items, starts, i);
      if p + 1 > plimit { break; }
      if same { return Some(v), i; }
      if v > plimit { break; }
      p := AdvanceDataPos(b, v).value;
      if p > plimit { break; }
      i := i + 1;
    }
    return None, numItems;
  }

  /** SearchForKey: the value stored under the first matching name, or nothing. The block holds the items
      from headerSize to size. */
  method SearchForKey(b: bytes, headerSize: nat, size: nat, numItems: nat, key: bytes,
                      ghost items: seq<Item>, ghost starts: seq<nat>) returns (r: Option<nat>)
    requires CString(key) && HoldsItems(BINN_OBJECT, b, headerSize, size, items, starts) && numItems == |items|
    ensures r == match Find(items, Name(key))
                 case None => None
                 case Some(i) => Some(ValueStart(starts[i], items[i]))
  {
    ghost var at;
    r, at := WalkNames(b, headerSize, size, numItems, key, items, starts);
    FoundFirst(items, Name(key), at);
  }

  lemma IdAt(b: bytes, p: nat, it: Item, q: nat)
    requires AtItem(b, p, it, q) && it.key.Id?
    ensures p + 4 < q <= |b| && Signed32(Word32(b, p)) == it.key.id && ValueStart(p, it) == p + 4
  {
    Word32At(b, p, Unsigned32(it.key.id));
  }

  /** The loop of SearchForID. */
  method WalkIds(b: bytes, headerSize: nat, size: nat, numItems: nat, id: int,
                 ghost items: seq<Item>, ghost starts: seq<nat>) returns (r: Option<nat>, ghost at: nat)
    requires HoldsItems(BINN_MAP, b, headerSize, size, items, starts) && numItems == |items|
    ensures at <= |items| && NoneUnder(items, Id(id), at)
    ensures at < |items| ==> SameKey(items[at].key, Id(id))
    ensures at < |items| ==> KeyOk(items[at].key) && r == Some(ValueStart(starts[at], items[at]))
    ensures at == |items| ==> r == None
  {
    var plimit := size - 1;
    var p := headerSize;
    var i := 0;
    while i < numItems
      invariant 0 <= i <= numItems && p == starts[i] && NoneUnder(items, Id(id), i)
    {
      PastItem(BINN_MAP, b, headerSize, size, items, starts, i);
      assert LaidAt(BINN_MAP, b, items, starts, i);
      IdAt(b, p, items[i], starts[i + 1]);
      var int32 := Signed32(Word32(b, p));
      p := p + 4;
      if p > plimit { break; }
      if int32 == id { return Some(p), i; }
      p := AdvanceDataPos(b, p).value;
      if p > plimit { break; }
      i := i + 1;
    }
    return None, numItems;
  }

  /** SearchForID: the value stored under the first equal id, or nothing. */
  method SearchForID(b: bytes, headerSize: nat, size: nat, numItems: nat, id: int,
                     ghost items: seq<Item>, ghost starts: seq<nat>) returns (r: Option<nat>)
    requires HoldsItems(BINN_MAP, b, headerSize, size, items, starts) && numItems == |items|
    ensures r == match Find(items, Id(id))
                 case None => None
                 case Some(i) => Some(ValueStart(starts[i], items[i]))
  {
    ghost var at;
    r, at := WalkIds(b, headerSize, size, numItems, id, items, starts);
    FoundFirst(items, Id(id), at);
  }

  /** A serialized container shows its header, and its items lie behind it. */
  lemma Opened(b: bytes, btype: byte, items: seq<Item>)
    requires Serialized(b, btype, items)
    ensures ParseHeader(b, 0).Some?
    ensures var h := ParseHeader(b, 0).value;
            && h.btype == btype && h.count == |items| && h.size == |Serialize(btype, items)| <= |b|
            && 3 <= h.headerSize <= h.size
            && HoldsItems(btype, b, h.headerSize, h.size, items, Starts(btype, h.headerSize, items))
  {
    SerializedParts(b, btype, items);
    LayOut(btype, b, HeaderLength(|items|, |Layout(btype, items)|), items);
  }

  /** binn_object_get_value: on any built container, the value stored under the name, or failure. */
  method ObjectGetValue(b: bytes, key: bytes, ghost btype: byte, ghost items: seq<Item>) returns (r: Option<Value>)
    requires Serialized(b, btype, items) && CString(key)
    ensures r == if btype == BINN_OBJECT then Lookup(items, Name(key)) else None
  {
    Opened(b, btype, items);
    var h := ParseHeader(b, 0).value;
    if h.btype != BINN_OBJECT { return None; }
    if h.count == 0 { return None; }
    ghost var starts := Starts(btype, h.headerSize, items);
    var p := SearchForKey(b, h.headerSize, h.size, h.count, key, items, starts);
    if p.None? { return None; }
    ghost var i := Find(items, Name(key)).value;
    assert LaidAt(btype, b, items, starts, i);
    ReadItem(btype, b, p.value, items, i);
    return GetValue(b, p.value);
  }

  /** binn_map_get_value. */
  method MapGetValue(b: bytes, id: int, ghost btype: byte, ghost items: seq<Item>) returns (r: Option<Value>)
    requires Serialized(b, btype, items)
    ensures r == if btype == BINN_MAP then Lookup(items, Id(id)) else None
  {
    Opened(b, btype, items);
    var h := ParseHeader(b, 0).value;
    if h.btype != BINN_MAP { return None; }
    if h.count == 0 { return None; }
    ghost var starts := Starts(btype, h.headerSize, items);
    var p := SearchForID(b, h.headerSize, h.size, h.count, id, items, starts);
    if p.None? { return None; }
    ghost var i := Find(items, Id(id)).value;
    assert LaidAt(btype, b, items, starts, i);
    ReadItem(btype, b, p.value, items, i);
    return GetValue(b, p.value);
  }

  /** binn_list_get_value: positions count from 1. */
  method ListGetValue(b: bytes, pos: int, ghost btype: byte, ghost items: seq<Item>) returns (r: Option<Value>)
    requires Serialized(b, btype, items)
    ensures r == if btype == BINN_LIST && 1 <= pos <= |items| then ValueOf(items[pos - 1]) else None
  {
    Opened(b, btype, items);
    var h := ParseHeader(b, 0).value;
    if h.btype != BINN_LIST { return None; }
    if h.count == 0 { return None; }
    if pos <= 0 || pos > h.count { return None; }
    ghost var starts := Starts(btype, h.headerSize, items);
    var plimit := h.size;
    var p := h.headerSize;
    var i := 0;
    while i < pos - 1
      invariant 0 <= i < pos && p == starts[i]
    {
      assert LaidAt(btype, b, items, starts, i);
      SkipItem(btype, b, p, items, i);
      p := AdvanceDataPos(b, p).value;
      if p > plimit { return None; }
      i := i + 1;
    }
    assert LaidAt(btype, b, items, starts, i);
    ReadItem(btype, b, p, items, i);
    return GetValue(b, p);
  }

  /** The key at p, as binn_read_pair and binn_read_next_pair read it, and where its value starts. */
  method ReadKey(btype: byte, b: bytes, p: nat, ghost it: Item, ghost q: nat) returns (key: Key, v: nat)
    requires btype == BINN_MAP || btype == BINN_OBJECT
    requires AtItem(b, p, it, q) && KeyFor(btype, it.key)
    ensures key == it.key && v == ValueStart(p, it) < q <= |b|
  {
    if btype == BINN_MAP {
      IdAt(b, p, it, q);
      key := Id(Signed32(Word32(b, p)));
      v := p + 4;
    } else {
      NameAt(b, p, it, q);
      var len := b[p];
      v := p + 1;
      key := Name(b[v..v + len]);
      v := v + len;
    }
  }

  /** binn_read_pair: the key and value at a position of a map or an object. */
  method ReadPair(expectedType: byte, b: bytes, pos: int, ghost btype: byte, ghost items: seq<Item>)
    returns (r: Option<(Key, Value)>)
    requires Serialized(b, btype, items) && (expectedType == BINN_MAP || expectedType == BINN_OBJECT)
    ensures r.Some? <==> btype == expectedType && 1 <= pos <= |items|
    ensures r.Some? ==> r.value.0 == items[pos - 1].key && Some(r.value.1) == ValueOf(items[pos - 1])
  {
    Opened(b, btype, items);
    var h := ParseHeader(b, 0).value;
    if h.btype != expectedType || h.count == 0 || pos < 1 || pos > h.count { return None; }
    ghost var starts := Starts(btype, h.headerSize, items);
    var plimit := h.size - 1;
    var p := h.headerSize;
    var i, counter := 0, 0;
    while i < h.count
      invariant 0 <= i == counter < pos && p == starts[i]
    {
      assert LaidAt(btype, b, items, starts, i);
      EndsBefore(btype, b, items, starts, i);
      var key;
      key, p := ReadKey(expectedType, b, p, items[i], starts[i + 1]);
      if p > plimit { return None; }
      counter := counter + 1;
      if counter == pos {
        ReadItem(btype, b, p, items, i);
        return Some((key, GetValue(b, p).value));
      }
      SkipItem(btype, b, p, items, i);
      p := AdvanceDataPos(b, p).value;
      if p > plimit { return None; }
      i := i + 1;
    }
    return None;
  }
}
