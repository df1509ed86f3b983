/** Runs of calls on the structure itself: whatever is set, refused, regrown and saved in between, the items
    are those of the run in BinnRuns, so a lookup finds what was first accepted under its key. */
module BinnTrace {
  import opened Bytes
  import opened BinnFormat
  import opened BinnWrite
  import opened BinnContainer
  import opened BinnRuns
  import opened BinnBuilder
  import opened BinnIter

  /** A call with its arguments: binn_list_add_raw, binn_object_set_raw, binn_map_set_raw, or binn_ptr. */
  datatype Operation =
    | AddItem(atype: int, pvalue: Option<bytes>, size: int)
    | SetName(key: Option<bytes>, atype: int, pvalue: Option<bytes>, size: int)
    | SetId(id: int, atype: int, pvalue: Option<bytes>, size: int)
    | Save

  /** The caller's promises about its arguments. */
  predicate Proper(op: Operation) {
    match op
    case AddItem(atype, pvalue, size) => Readable(atype, pvalue, size)
    case SetName(key, atype, pvalue, size) => (key.Some? ==> CString(key.value)) && Readable(atype, pvalue, size)
    case SetId(id, atype, pvalue, size) => Int32(id) && Readable(atype, pvalue, size)
    case Save => true
  }

  predicate AllProper(ops: seq<Operation>) {
    forall k :: 0 <= k < |ops| ==> Proper(ops[k])
  }

  /** At most so many bytes are used for a call. */
  function SizeOf(op: Operation, compress: bool): nat
    requires Proper(op)
  {
    match op
    case AddItem(atype, pvalue, size) => Reserved(atype, pvalue, size, compress)
    case SetName(_, atype, pvalue, size) => 256 + Reserved(atype, pvalue, size, compress)
    case SetId(_, atype, pvalue, size) => 4 + Reserved(atype, pvalue, size, compress)
    case Save => 0
  }

  /** Any call is proper whose value may be read and whose key is a number of 32 bits or a string; and it needs at
      most 256 bytes for its key, and ten more than there are in the memory of its value. */
  lemma CallsAllowed(op: Operation, compress: bool)
    ensures op.Save? ==> Proper(op)
    ensures op.AddItem? ==> (Proper(op) <==> Readable(op.atype, op.pvalue, op.size))
    ensures op.SetId? ==>
              (Proper(op) <==> Readable(op.atype, op.pvalue, op.size) && -0x8000_0000 <= op.id <= 0x7FFF_FFFF)
    ensures op.SetName? ==>
              (Proper(op) <==> Readable(op.atype, op.pvalue, op.size) && (op.key.Some? ==> 0 !in op.key.value))
    ensures Proper(op) && !op.Save? ==>
              SizeOf(op, compress) <= 266 + if op.pvalue.Some? then |op.pvalue.value| else 0
  {
    if Proper(op) && !op.Save? && op.pvalue.Some? { StoredFits(op.atype, op.pvalue.value, compress); }
  }

  function SizesOf(ops: seq<Operation>, compress: bool): nat
    requires AllProper(ops)
  {
    if ops == [] then 0 else SizeOf(ops[0], compress) + SizesOf(ops[1..], compress)
  }

  /** The key a call sets, if the structure has such keys; none is the key of a list. */
  function KeyOf(op: Operation, btype: byte): Option<Key> {
    match op
    case AddItem(_, _, _) => if btype == BINN_LIST then Some(NoKey) else None
    case SetName(key, _, _, _) =>
      if btype == BINN_OBJECT && key.Some? && |key.value| <= 255 then Some(Name(key.value)) else None
    case SetId(id, _, _, _) => if btype == BINN_MAP then Some(Id(id)) else None
    case Save => None
  }

  /** What the call amounts to, on a structure with these items: it puts what AddValue writes for its
      argument, when there is a key for it, it can be written, and the structure has the capacity. */
  ghost function CallOf(op: Operation, btype: byte, items: seq<Item>, capacity: nat, compress: bool): Call
    requires Proper(op)
  {
    var key := KeyOf(op, btype);
    if key.None? then Nothing
    else
      var e := Emit(op.atype, op.pvalue, op.size, compress);
      var reserved := Reserved(op.atype, op.pvalue, op.size, compress);
      if e.Some? && Used(btype, items) + |EncodeKey(key.value)| + reserved <= capacity then Put(key.value, e.value)
      else Nothing
  }

  /** Whatever is put is read back as what the caller's argument means. */
  lemma PutMeans(op: Operation, btype: byte, items: seq<Item>, capacity: nat, compress: bool)
    requires Proper(op) && CallOf(op, btype, items, capacity, compress).Put?
    ensures Emit(op.atype, op.pvalue, op.size, compress).Some?
    ensures GetValue(CallOf(op, btype, items, capacity, compress).val, 0) ==
            Some(Meaning(op.atype, op.pvalue, op.size, compress))
  {
    WrittenValue(op.atype, op.pvalue, op.size, compress);
  }

  ghost function CallsOf(ops: seq<Operation>, btype: byte, items: seq<Item>, capacity: nat, compress: bool): seq<Call>
    requires AllProper(ops)
    decreases |ops|
  {
    if ops == [] then []
    else
      var c := CallOf(ops[0], btype, items, capacity, compress);
      [c] + CallsOf(ops[1..], btype, AfterCall(items, c), capacity, compress)
  }

  /** Whether a set succeeds; saving always does. */
  ghost predicate Succeeds(op: Operation, items: seq<Item>, c: Call) {
    op.Save? || Stores(items, c)
  }

  ghost function Outcomes(ops: seq<Operation>, btype: byte, items: seq<Item>, capacity: nat, compress: bool): seq<bool>
    requires AllProper(ops)
    decreases |ops|
  {
    if ops == [] then []
    else
      var c := CallOf(ops[0], btype, items, capacity, compress);
      [Succeeds(ops[0], items, c)] + Outcomes(ops[1..], btype, AfterCall(items, c), capacity, compress)
  }

  method PerformAddItem(obj: Binn, op: Operation) returns (ok: bool)
    requires op.AddItem?
    requires obj.Valid() && Proper(op) && obj.usedSize + SizeOf(op, !obj.disableIntCompression) <= SIZE_LIMIT
    modifies obj`pbuf, obj`usedSize, obj`dirty, obj`count, obj`items, obj.pbuf
    ensures obj.Valid() && (obj.pbuf == old(obj.pbuf) || fresh(obj.pbuf)) && obj.Capacity() == old(obj.Capacity())
    ensures var c := CallOf(op, obj.btype, old(obj.items), old(obj.Capacity()), !obj.disableIntCompression);
            obj.items == AfterCall(old(obj.items), c) && ok == Succeeds(op, old(obj.items), c)
    ensures obj.usedSize <= old(obj.usedSize) + SizeOf(op, !obj.disableIntCompression)
  {
    ghost var compress := !obj.disableIntCompression;
    ghost var e := Emit(op.atype, op.pvalue, op.size, compress);
    ghost var reserved := Reserved(op.atype, op.pvalue, op.size, compress);
    assert Used(obj.btype, obj.items) == obj.usedSize;
    if e.Some? { PlannedValue(compress, op.atype, op.pvalue, op.size, e, reserved); }
    ok := obj.ListAddRaw(op.atype, op.pvalue, op.size, e, reserved);
  }

  method PerformSetName(obj: Binn, op: Operation) returns (ok: bool)
    requires op.SetName?
    requires obj.Valid() && Proper(op) && obj.usedSize + SizeOf(op, !obj.disableIntCompression) <= SIZE_LIMIT
    modifies obj`pbuf, obj`usedSize, obj`dirty, obj`count, obj`items, obj.pbuf
    ensures obj.Valid() && (obj.pbuf == old(obj.pbuf) || fresh(obj.pbuf)) && obj.Capacity() == old(obj.Capacity())
    ensures var c := CallOf(op, obj.btype, old(obj.items), old(obj.Capacity()), !obj.disableIntCompression);
            obj.items == AfterCall(old(obj.items), c) && ok == Succeeds(op, old(obj.items), c)
    ensures obj.usedSize <= old(obj.usedSize) + SizeOf(op, !obj.disableIntCompression)
  {
    ghost var compress := !obj.disableIntCompression;
    ghost var e := Emit(op.atype, op.pvalue, op.size, compress);
    ghost var reserved := Reserved(op.atype, op.pvalue, op.size, compress);
    assert Used(obj.btype, obj.items) == obj.usedSize;
    if e.Some? { PlannedValue(compress, op.atype, op.pvalue, op.size, e, reserved); }
    ok := obj.ObjectSetRaw(op.key, op.atype, op.pvalue, op.size, e, reserved);
  }

  method PerformSetId(obj: Binn, op: Operation) returns (ok: bool)
    requires op.SetId?
    requires obj.Valid() && Proper(op) && obj.usedSize + SizeOf(op, !obj.disableIntCompression) <= SIZE_LIMIT
    modifies obj`pbuf, obj`usedSize, obj`dirty, obj`count, obj`items, obj.pbuf
    ensures obj.Valid() && (obj.pbuf == old(obj.pbuf) || fresh(obj.pbuf)) && obj.Capacity() == old(obj.Capacity())
    ensures var c := CallOf(op, obj.btype, old(obj.items), old(obj.Capacity()), !obj.disableIntCompression);
            obj.items == AfterCall(old(obj.items), c) && ok == Succeeds(op, old(obj.items), c)
    ensures obj.usedSize <= old(obj.usedSize) + SizeOf(op, !obj.disableIntCompression)
  {
    ghost var compress := !obj.disableIntCompression;
    ghost var e := Emit(op.atype, op.pvalue, op.size, compress);
    ghost var reserved := Reserved(op.atype, op.pvalue, op.size, compress);
    assert Used(obj.btype, obj.items) == obj.usedSize;
    if e.Some? { PlannedValue(compress, op.atype, op.pvalue, op.size, e, reserved); }
    ok := obj.MapSetRaw(op.id, op.atype, op.pvalue, op.size, e, reserved);
  }

  /** One call. */
  method PerformOne(obj: Binn, op: Operation) returns (ok: bool)
    requires obj.Valid() && Proper(op) && obj.usedSize + SizeOf(op, !obj.disableIntCompression) <= SIZE_LIMIT
    modifies obj`pbuf, obj`usedSize, obj`dirty, obj`count, obj`items, obj`ptr, obj`size, obj.pbuf
    ensures obj.Valid() && (obj.pbuf == old(obj.pbuf) || fresh(obj.pbuf)) && obj.Capacity() == old(obj.Capacity())
    ensures var c := CallOf(op, obj.btype, old(obj.items), old(obj.Capacity()), !obj.disableIntCompression);
            obj.items == AfterCall(old(obj.items), c) && ok == Succeeds(op, old(obj.items), c)
    ensures obj.usedSize <= old(obj.usedSize) + SizeOf(op, !obj.disableIntCompression)
  {
    match op {
      case AddItem(_, _, _) =>
        ok := PerformAddItem(obj, op);
      case SetName(_, _, _, _) =>
        ok := PerformSetName(obj, op);
      case SetId(_, _, _, _) =>
        ok := PerformSetId(obj, op);
      case Save =>
        var p := obj.Ptr();
        ok := true;
    }
  }

  /** A run of calls. */
  method Perform(obj: Binn, ops: seq<Operation>) returns (results: seq<bool>)
    requires obj.Valid() && AllProper(ops)
    requires obj.usedSize + SizesOf(ops, !obj.disableIntCompression) <= SIZE_LIMIT
    modifies obj`pbuf, obj`usedSize, obj`dirty, obj`count, obj`items, obj`ptr, obj`size, obj.pbuf
    ensures obj.Valid() && (obj.pbuf == old(obj.pbuf) || fresh(obj.pbuf)) && obj.Capacity() == old(obj.Capacity())
    ensures obj.items == AfterCalls(old(obj.items), CallsOf(ops, obj.btype, old(obj.items), old(obj.Capacity()),
                                                            !obj.disableIntCompression))
    ensures results == Outcomes(ops, obj.btype, old(obj.items), old(obj.Capacity()), !obj.disableIntCompression)
    decreases |ops|
  {
    if ops == [] { return []; }
    var ok := PerformOne(obj, ops[0]);
    var rest := Perform(obj, ops[1..]);
    results := [ok] + rest;
  }

  /** The value the run leaves under a key: what was there before it, or else the first put under the key. */
  ghost function ValueAfter(items: seq<Item>, calls: seq<Call>, key: Key): Option<Value> {
    var stored := if Stored(items, key).Some? then Stored(items, key) else FirstSet(calls, key);
    match stored
    case None => None
    case Some(val) => GetValue(val, 0)
  }

  lemma LookupAfter(items: seq<Item>, calls: seq<Call>, key: Key)
    ensures Lookup(AfterCalls(items, calls), key) == ValueAfter(items, calls, key)
  {
    RunRefinesMap(items, calls, key);
  }

  /** An object is a map from names, up to case: after any run of calls it is read as the map the run wrote. */
  method PerformThenObjectGet(obj: Binn, ops: seq<Operation>, key: bytes) returns (r: Option<Value>)
    requires obj.Valid() && obj.btype == BINN_OBJECT && AllProper(ops) && CString(key)
    requires obj.usedSize + SizesOf(ops, !obj.disableIntCompression) <= SIZE_LIMIT
    modifies obj`pbuf, obj`usedSize, obj`dirty, obj`count, obj`items, obj`ptr, obj`size, obj.pbuf
    ensures obj.Valid()
    ensures r == ValueAfter(old(obj.items), CallsOf(ops, BINN_OBJECT, old(obj.items), old(obj.Capacity()),
                                                    !obj.disableIntCompression), Name(key))
  {
    ghost var items, capacity := obj.items, obj.Capacity();
    var results := Perform(obj, ops);
    LookupAfter(items, CallsOf(ops, BINN_OBJECT, items, capacity, !obj.disableIntCompression), Name(key));
    r := obj.ObjectGet(key);
  }

  /** And a map is one from ids. */
  method PerformThenMapGet(obj: Binn, ops: seq<Operation>, id: int) returns (r: Option<Value>)
    requires obj.Valid() && obj.btype == BINN_MAP && AllProper(ops)
    requires obj.usedSize + SizesOf(ops, !obj.disableIntCompression) <= SIZE_LIMIT
    modifies obj`pbuf, obj`usedSize, obj`dirty, obj`count, obj`items, obj`ptr, obj`size, obj.pbuf
    ensures obj.Valid()
    ensures r == ValueAfter(old(obj.items), CallsOf(ops, BINN_MAP, old(obj.items), old(obj.Capacity()),
                                                    !obj.disableIntCompression), Id(id))
  {
    ghost var items, capacity := obj.items, obj.Capacity();
    var results := Perform(obj, ops);
    LookupAfter(items, CallsOf(ops, BINN_MAP, items, capacity, !obj.disableIntCompression), Id(id));
    r := obj.MapGet(id);
  }

  /** The values of a list, read from its bytes. */
  method ReadValues(obj: Binn) returns (values: seq<Option<Value>>)
    requires obj.Valid() && obj.btype == BINN_LIST
    modifies obj`ptr, obj`size, obj`dirty, obj.pbuf
    ensures obj.Valid() && values == Values(obj.items)
  {
    var p := obj.Ptr();
    values := ListForEach(obj.pbuf[..obj.usedSize][p..], obj.items);
  }

  /** A list is the values accepted, in the order of the calls: iterating over its bytes yields them. */
  method PerformThenForEach(obj: Binn, ops: seq<Operation>) returns (values: seq<Option<Value>>)
    requires obj.Valid() && obj.btype == BINN_LIST && obj.items == [] && AllProper(ops)
    requires obj.usedSize + SizesOf(ops, !obj.disableIntCompression) <= SIZE_LIMIT
    modifies obj`pbuf, obj`usedSize, obj`dirty, obj`count, obj`items, obj`ptr, obj`size, obj.pbuf
    ensures obj.Valid()
    ensures values == Values(StoredBy([], CallsOf(ops, BINN_LIST, [], old(obj.Capacity()), !obj.disableIntCompression)))
  {
    RunAppends([], CallsOf(ops, BINN_LIST, [], obj.Capacity(), !obj.disableIntCompression));
    var results := Perform(obj, ops);
    values := ReadValues(obj);
  }

  /** The pairs of a map or an object, read from its bytes. */
  method ReadPairs(obj: Binn) returns (pairs: seq<(Key, Value)>)
    requires obj.Valid() && (obj.btype == BINN_MAP || obj.btype == BINN_OBJECT)
    modifies obj`ptr, obj`size, obj`dirty, obj.pbuf
    ensures obj.Valid() && |pairs| == |obj.items|
    ensures forall k :: 0 <= k < |obj.items| ==> Some(pairs[k]) == PairAt(obj.items, k)
  {
    var p := obj.Ptr();
    pairs := PairForEach(obj.btype, obj.pbuf[..obj.usedSize][p..], obj.items);
  }

  /** So are a map and an object, with their keys. */
  method PerformThenPairs(obj: Binn, ops: seq<Operation>) returns (pairs: seq<(Key, Value)>)
    requires obj.Valid() && (obj.btype == BINN_MAP || obj.btype == BINN_OBJECT) && obj.items == [] && AllProper(ops)
    requires obj.usedSize + SizesOf(ops, !obj.disableIntCompression) <= SIZE_LIMIT
    modifies obj`pbuf, obj`usedSize, obj`dirty, obj`count, obj`items, obj`ptr, obj`size, obj.pbuf
    ensures obj.Valid()
    ensures var stored := StoredBy([], CallsOf(ops, obj.btype, [], old(obj.Capacity()), !obj.disableIntCompression));
            |pairs| == |stored| && forall k :: 0 <= k < |stored| ==> Some(pairs[k]) == PairAt(stored, k)
  {
    RunAppends([], CallsOf(ops, obj.btype, [], obj.Capacity(), !obj.disableIntCompression));
    var results := Perform(obj, ops);
    pairs := ReadPairs(obj);
  }

  /** And on the bytes of whatever a run has built from empty, all readers agree: on what the run stored. */
  method PerformThenCompare(obj: Binn, ops: seq<Operation>, k: nat)
    returns (sequential: Option<(Key, Value)>, positional: Option<(Key, Value)>, keyed: Option<Value>)
    requires obj.Valid() && obj.items == [] && (obj.btype == BINN_MAP || obj.btype == BINN_OBJECT) && AllProper(ops)
    requires obj.usedSize + SizesOf(ops, !obj.disableIntCompression) <= SIZE_LIMIT
    modifies obj`pbuf, obj`usedSize, obj`dirty, obj`count, obj`items, obj`ptr, obj`size, obj.pbuf
    ensures obj.Valid()
    ensures obj.items == StoredBy([], CallsOf(ops, obj.btype, [], old(obj.Capacity()), !obj.disableIntCompression))
    ensures sequential == positional && (sequential.Some? <==> k < |obj.items|)
    ensures sequential.Some? ==>
              sequential.value.0 == obj.items[k].key && keyed == Some(sequential.value.1) == ValueOf(obj.items[k])
  {
    ghost var calls := CallsOf(ops, obj.btype, [], obj.Capacity(), !obj.disableIntCompression);
    var results := Perform(obj, ops);
    RunAppends([], calls);
    RunKeepsKeysDistinct([], calls);
    var p := obj.Ptr();
    sequential, positional, keyed := PairReadersAgree(obj.btype, obj.pbuf[..obj.usedSize][p..], k, obj.items);
  }

  /** For lists, the two readers there are. */
  method PerformThenCompareList(obj: Binn, ops: seq<Operation>, k: nat)
    returns (sequential: Option<Value>, positional: Option<Value>)
    requires obj.Valid() && obj.items == [] && obj.btype == BINN_LIST && AllProper(ops)
    requires obj.usedSize + SizesOf(ops, !obj.disableIntCompression) <= SIZE_LIMIT
    modifies obj`pbuf, obj`usedSize, obj`dirty, obj`count, obj`items, obj`ptr, obj`size, obj.pbuf
    ensures obj.Valid()
    ensures var stored := StoredBy([], CallsOf(ops, BINN_LIST, [], old(obj.Capacity()), !obj.disableIntCompression));
            && sequential == positional == (if k < |stored| then ValueOf(stored[k]) else None)
            && (k < |stored| ==> sequential.Some?)
  {
    RunAppends([], CallsOf(ops, BINN_LIST, [], obj.Capacity(), !obj.disableIntCompression));
    var results := Perform(obj, ops);
    var p := obj.Ptr();
    sequential, positional := ListReadersAgree(obj.pbuf[..obj.usedSize][p..], k, obj.items);
  }
}
