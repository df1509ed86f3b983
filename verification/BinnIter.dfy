/** The validity check and the sequential readers. */
module BinnIter {
  import opened Bytes
  import opened BinnFormat
  import opened BinnContainer
  import opened BinnReader

  /** Where item k lies. */
  lemma Place(btype: int, b: bytes, start: nat, end: nat, items: seq<Item>, starts: seq<nat>, k: nat)
    requires HoldsItems(btype, b, start, end, items, starts) && k < |items|
    ensures AtItem(b, starts[k], items[k], starts[k + 1]) && KeyFor(btype, items[k].key)
    ensures ValueStart(starts[k], items[k]) < starts[k + 1] <= end && starts[k + 1] <= |b|
    ensures starts[k + 1] == end <==> k + 1 == |items|
    ensures Holds(b, ValueStart(starts[k], items[k]), items[k].val)
  {
    assert LaidAt(btype, b, items, starts, k);
    EndsBefore(btype, b, items, starts, k);
  }

  /** Past the key of item k, as binn_is_valid counts. */
  function KeyLength(btype: int, b: bytes, p: nat): int
    requires p < |b|
  {
    if btype == BINN_OBJECT then 1 + b[p] as int else if btype == BINN_MAP then 4 else 0
  }

  lemma PastKey(btype: int, b: bytes, start: nat, end: nat, items: seq<Item>, starts: seq<nat>, k: nat)
    requires HoldsItems(btype, b, start, end, items, starts) && k < |items|
    ensures starts[k] < |b| && ValueStart(starts[k], items[k]) == starts[k] + KeyLength(btype, b, starts[k])
  {
    Place(btype, b, start, end, items, starts, k);
    if btype == BINN_MAP {
      IdAt(b, starts[k], items[k], starts[k + 1]);
    } else if btype == BINN_OBJECT {
      NameAt(b, starts[k], items[k], starts[k + 1]);
    }
  }

  /** One turn of binn_is_valid: the position after the item at p, unless the turn leaves the block. */
  function NextPosition(btype: int, b: bytes, p: int): Option<int> {
    if !(0 <= p < |b|) then None
    else
      var v := p + KeyLength(btype, b, p);
      if v < |b| then AdvanceDataPos(b, v) else None
  }

  /** n turns from p stay in the block. */
  predicate StaysInBlock(btype: int, b: bytes, p: int, n: nat)
    decreases n
  {
    n == 0 || (NextPosition(btype, b, p).Some? && StaysInBlock(btype, b, NextPosition(btype, b, p).value, n - 1))
  }

  lemma Step(btype: int, b: bytes, start: nat, end: nat, items: seq<Item>, starts: seq<nat>, k: nat)
    requires HoldsItems(btype, b, start, end, items, starts) && k < |items|
    ensures NextPosition(btype, b, starts[k]) == Some(starts[k + 1])
  {
    Place(btype, b, start, end, items, starts, k);
    PastKey(btype, b, start, end, items, starts, k);
    SkipItem(btype, b, ValueStart(starts[k], items[k]), items, k);
  }

  lemma {:induction false} BuiltStays(btype: int, b: bytes, start: nat, end: nat, items: seq<Item>, starts: seq<nat>, k: nat)
    requires HoldsItems(btype, b, start, end, items, starts) && k <= |items|
    ensures StaysInBlock(btype, b, starts[k], |items| - k)
    decreases |items| - k
  {
    if k < |items| {
      Step(btype, b, start, end, items, starts, k);
      BuiltStays(btype, b, start, end, items, starts, k + 1);
    }
  }

  /** The first four bytes are BINN_MAGIC, as a little-endian host stores it: binn_get_ptr_type takes the block
      for a structure. */
  predicate IsMagic(b: bytes) {
    |b| >= 4 && b[0] == 0x1F && b[1] == 0xB1 && b[2] == 0x22 && b[3] == 0x1F
  }

  /** The block ends before its header does. */
  predicate HeaderCut(b: bytes) {
    || |b| == 0
    || (&& IsContainer(b[0])
        && (ReadCompact(b, 1).None? || ReadCompact(b, ReadCompact(b, 1).value.1).None?))
  }

  /** What binn_is_valid answers; Structure where it takes the block for a structure and follows the pointers in
      it; OutOfBlock where it has to read outside the block it was given. */
  datatype Validity = Valid(header: Header) | Invalid | Structure | OutOfBlock

  /** What becomes of a block. */
  function ValidityOf(b: bytes): Validity {
    if |b| < 4 then OutOfBlock
    else if IsMagic(b) then Structure
    else if HeaderCut(b) then OutOfBlock
    else
      match ParseHeader(b, 0)
      case None => Invalid
      case Some(h) => if StaysInBlock(h.btype, b, h.headerSize, h.count) then Valid(h) else OutOfBlock
  }

  /** Every built container is accepted and reported, in any block of four bytes. */
  lemma BuiltIsValid(b: bytes, btype: byte, items: seq<Item>)
    requires Serialized(b, btype, items) && |b| >= 4
    ensures ParseHeader(b, 0).Some? && ValidityOf(b) == Valid(ParseHeader(b, 0).value)
    ensures var h := ParseHeader(b, 0).value;
            h.btype == btype && h.count == |items| && h.size == |Serialize(btype, items)|
  {
    Opened(b, btype, items);
    var h := ParseHeader(b, 0).value;
    BuiltStays(btype, b, h.headerSize, h.size, items, Starts(btype, h.headerSize, items), 0);
  }

  /** binn_is_valid, on every block. Its test after each item compares two truth values with `>`:
      `(p == 0) > (p > plimit)`. As no storage class makes AdvanceDataPos return NULL the test never fires, so
      only the header is ever found invalid: items may run past the size the header states. */
  method IsValid(b: bytes) returns (r: Validity)
    ensures r == ValidityOf(b)
  {
    if |b| < 4 { return OutOfBlock; }
    if IsMagic(b) { return Structure; }
    if HeaderCut(b) { return OutOfBlock; }
    var header := ParseHeader(b, 0);
    if header.None? { return Invalid; }
    var h := header.value;
    var plimit := h.size;
    var p: int := h.headerSize;
    var i := 0;
    while i < h.count
      invariant 0 <= i <= h.count
      invariant StaysInBlock(h.btype, b, p, h.count - i) <==> StaysInBlock(h.btype, b, h.headerSize, h.count)
    {
      var next := NextPosition(h.btype, b, p);
      if next.None? { return OutOfBlock; }
      p := next.value;
      var isNull, isPast := 0, if p > plimit then 1 else 0;
      if isNull > isPast { return Invalid; }
      i := i + 1;
    }
    return Valid(h);
  }

  /** Where the items of a built container start and end. */
  lemma FirstPlace(b: bytes, btype: byte, items: seq<Item>) returns (start: nat, end: nat, starts: seq<nat>)
    requires Serialized(b, btype, items)
    ensures ParseHeader(b, 0) == Some(Header(btype, |items|, end, start)) && 0 < end
    ensures HoldsItems(btype, b, start, end, items, starts)
    ensures if items == [] then start == end else start < end
  {
    Opened(b, btype, items);
    var h := ParseHeader(b, 0).value;
    start, end, starts := h.headerSize, h.size, Starts(btype, h.headerSize, items);
    if items != [] { Place(btype, b, start, end, items, starts, 0); }
  }

  /** The key and value of item k. */
  function PairAt(items: seq<Item>, k: nat): Option<(Key, Value)> {
    if k >= |items| then None
    else
      match ValueOf(items[k])
      case None => None
      case Some(value) => Some((items[k].key, value))
  }

  /** The value of item k. */
  function ValueAt(items: seq<Item>, k: nat): Option<Value> {
    if k < |items| then ValueOf(items[k]) else None
  }

  class BinnIter {
    var pnext: nat
    var plimit: int
    var btype: int
    var count: int
    var current: int
    ghost var starts: seq<nat>

    constructor () {
      pnext, plimit, btype, count, current := 0, 0, 0, 0, 0;
    }

    /** The iterator has yielded the first k items of the container in b. */
    ghost predicate At(b: bytes, bt: int, items: seq<Item>, k: nat)
      reads this
    {
      && |starts| == |items| + 1 && k <= |items| && plimit >= 0
      && HoldsItems(bt, b, starts[0], plimit + 1, items, starts)
      && pnext == starts[k]
      && btype == bt && count == |items|
      && (if k < |items| then current == k && pnext <= plimit else pnext > plimit)
    }

    /** binn_iter_init. */
    method Init(b: bytes, expectedType: byte, ghost bt: byte, ghost items: seq<Item>) returns (ok: bool)
      requires Serialized(b, bt, items)
      modifies this
      ensures ok <==> bt == expectedType
      ensures ok ==> At(b, bt, items, 0)
    {
      ghost var start, end, places := FirstPlace(b, bt, items);
      var h := ParseHeader(b, 0).value;
      if h.btype != expectedType { return false; }
      plimit := h.size - 1;
      pnext := h.headerSize;
      count := h.count;
      current := 0;
      btype := h.btype;
      starts := places;
      return true;
    }

    /** binn_list_next: the next item in order, and for ever nothing after the last. */
    method ListNext(b: bytes, ghost items: seq<Item>, ghost k: nat) returns (r: Option<Value>)
      requires At(b, BINN_LIST, items, k)
      modifies this
      ensures r == ValueAt(items, k) && (r.Some? <==> k < |items|)
      ensures At(b, BINN_LIST, items, if k < |items| then k + 1 else k)
    {
      if pnext > plimit || current > count || btype != BINN_LIST { return None; }
      current := current + 1;
      if current > count { return None; }
      Place(BINN_LIST, b, starts[0], plimit + 1, items, starts, k);
      SkipItem(BINN_LIST, b, pnext, items, k);
      ReadItem(BINN_LIST, b, pnext, items, k);
      var pnow := pnext;
      pnext := AdvanceDataPos(b, pnow).value;
      return GetValue(b, pnow);
    }

    /** binn_read_next_pair, for maps and objects: likewise with the keys. */
    method NextPair(expectedType: byte, b: bytes, ghost items: seq<Item>, ghost k: nat) returns (r: Option<(Key, Value)>)
      requires expectedType == BINN_MAP || expectedType == BINN_OBJECT
      requires At(b, expectedType, items, k)
      modifies this
      ensures r == PairAt(items, k) && (r.Some? <==> k < |items|)
      ensures At(b, expectedType, items, if k < |items| then k + 1 else k)
    {
      if pnext > plimit || current > count || btype != expectedType { return None; }
      current := current + 1;
      if current > count { return None; }
      Place(expectedType, b, starts[0], plimit + 1, items, starts, k);
      var key, p := ReadKey(expectedType, b, pnext, items[k], starts[k + 1]);
      if p > plimit { return None; }
      SkipItem(expectedType, b, p, items, k);
      ReadItem(expectedType, b, p, items, k);
      pnext := AdvanceDataPos(b, p).value;
      return Some((key, GetValue(b, p).value));
    }
  }

  /** The values of the items, in order. */
  ghost function Values(items: seq<Item>): seq<Option<Value>> {
    seq(|items|, k requires 0 <= k < |items| => ValueOf(items[k]))
  }

  /** The loop of binn_list_foreach. */
  method CollectValues(iter: BinnIter, b: bytes, ghost items: seq<Item>) returns (values: seq<Option<Value>>)
    requires iter.At(b, BINN_LIST, items, 0)
    modifies iter
    ensures values == Values(items)
  {
    values := [];
    var value := iter.ListNext(b, items, 0);
    while value.Some?
      invariant |values| <= |items| && values == Values(items)[..|values|]
      invariant iter.At(b, BINN_LIST, items, if |values| < |items| then |values| + 1 else |items|)
      invariant value == ValueAt(items, |values|) && (value.Some? <==> |values| < |items|)
      decreases |items| - |values|
    {
      values := values + [value];
      value := iter.ListNext(b, items, |values|);
    }
  }

  /** binn_list_foreach: the iterator yields every item once, in insertion order, and then nothing. */
  method ListForEach(b: bytes, ghost items: seq<Item>) returns (values: seq<Option<Value>>)
    requires Serialized(b, BINN_LIST, items)
    ensures values == Values(items)
  {
    var iter := new BinnIter();
    var ok := iter.Init(b, BINN_LIST, BINN_LIST, items);
    values := CollectValues(iter, b, items);
  }

  /** The pairs are those of the first items. */
  predicate FirstPairs(items: seq<Item>, pairs: seq<(Key, Value)>) {
    pairs == [] ||
    (FirstPairs(items, pairs[..|pairs| - 1]) && Some(pairs[|pairs| - 1]) == PairAt(items, |pairs| - 1))
  }

  lemma {:induction false} FirstPairsAt(items: seq<Item>, pairs: seq<(Key, Value)>, k: nat)
    requires FirstPairs(items, pairs) && k < |pairs|
    ensures Some(pairs[k]) == PairAt(items, k)
    decreases |pairs|
  {
    if k + 1 < |pairs| { FirstPairsAt(items, pairs[..|pairs| - 1], k); }
  }

  lemma FirstPairsGrow(items: seq<Item>, pairs: seq<(Key, Value)>, pair: (Key, Value))
    requires FirstPairs(items, pairs) && Some(pair) == PairAt(items, |pairs|)
    ensures FirstPairs(items, pairs + [pair])
  {
    assert (pairs + [pair])[..|pairs|] == pairs;
  }

  /** The loop of binn_map_foreach and binn_object_foreach. */
  method CollectPairs(iter: BinnIter, btype: byte, b: bytes, ghost items: seq<Item>) returns (pairs: seq<(Key, Value)>)
    requires btype == BINN_MAP || btype == BINN_OBJECT
    requires iter.At(b, btype, items, 0)
    modifies iter
    ensures |pairs| == |items| && forall k :: 0 <= k < |items| ==> Some(pairs[k]) == PairAt(items, k)
  {
    pairs := [];
    var pair := iter.NextPair(btype, b, items, 0);
    while pair.Some?
      invariant |pairs| <= |items| && FirstPairs(items, pairs)
      invariant iter.At(b, btype, items, if |pairs| < |items| then |pairs| + 1 else |items|)
      invariant pair == PairAt(items, |pairs|) && (pair.Some? <==> |pairs| < |items|)
      decreases |items| - |pairs|
    {
      FirstPairsGrow(items, pairs, pair.value);
      pairs := pairs + [pair.value];
      pair := iter.NextPair(btype, b, items, |pairs|);
    }
    forall k | 0 <= k < |items|
      ensures Some(pairs[k]) == PairAt(items, k)
    {
      FirstPairsAt(items, pairs, k);
    }
  }

  /** binn_map_foreach and binn_object_foreach: every key with its value, in insertion order. */
  method PairForEach(btype: byte, b: bytes, ghost items: seq<Item>) returns (pairs: seq<(Key, Value)>)
    requires btype == BINN_MAP || btype == BINN_OBJECT
    requires Serialized(b, btype, items)
    ensures |pairs| == |items| && forall k :: 0 <= k < |items| ==> Some(pairs[k]) == PairAt(items, k)
  {
    var iter := new BinnIter();
    var ok := iter.Init(b, btype, btype, items);
    pairs := CollectPairs(iter, btype, b, items);
  }

  /** The k-th step of the iterator of a list, from its start. */
  method SequentialItem(b: bytes, k: nat, ghost items: seq<Item>) returns (r: Option<Value>)
    requires Serialized(b, BINN_LIST, items)
    ensures r == if k < |items| then ValueOf(items[k]) else None
    ensures k < |items| ==> r.Some?
  {
    var iter := new BinnIter();
    var ok := iter.Init(b, BINN_LIST, BINN_LIST, items);
    r := iter.ListNext(b, items, 0);
    var i := 0;
    while i < k
      invariant 0 <= i <= k && iter.At(b, BINN_LIST, items, if i < |items| then i + 1 else |items|)
      invariant r == ValueAt(items, i) && (r.Some? <==> i < |items|)
    {
      r := iter.ListNext(b, items, if i < |items| then i + 1 else |items|);
      i := i + 1;
    }
  }

  /** The k-th step of the iterator of a map or an object. */
  method SequentialPair(btype: byte, b: bytes, k: nat, ghost items: seq<Item>) returns (r: Option<(Key, Value)>)
    requires btype == BINN_MAP || btype == BINN_OBJECT
    requires Serialized(b, btype, items)
    ensures r == PairAt(items, k) && (r.Some? <==> k < |items|)
  {
    var iter := new BinnIter();
    var ok := iter.Init(b, btype, btype, items);
    r := iter.NextPair(btype, b, items, 0);
    var i := 0;
    while i < k
      invariant 0 <= i <= k && iter.At(b, btype, items, if i < |items| then i + 1 else |items|)
      invariant r == PairAt(items, i) && (r.Some? <==> i < |items|)
    {
      r := iter.NextPair(btype, b, items, if i < |items| then i + 1 else |items|);
      i := i + 1;
    }
  }

  /** The readers of a list agree: the k-th step of the iterator and the read at position k + 1. */
  method ListReadersAgree(b: bytes, k: nat, ghost items: seq<Item>)
    returns (sequential: Option<Value>, positional: Option<Value>)
    requires Serialized(b, BINN_LIST, items)
    ensures sequential == positional == if k < |items| then ValueOf(items[k]) else None
    ensures k < |items| ==> sequential.Some?
  {
    sequential := SequentialItem(b, k, items);
    positional := ListGetValue(b, k + 1, BINN_LIST, items);
  }

  /** The search for a key that was read. */
  method KeyedValue(btype: byte, b: bytes, key: Key, ghost items: seq<Item>) returns (r: Option<Value>)
    requires Serialized(b, btype, items) && KeyFor(btype, key) && KeyOk(key)
    ensures r == if btype == BINN_MAP || btype == BINN_OBJECT then Lookup(items, key) else None
  {
    match key {
      case Name(name) => r := ObjectGetValue(b, name, btype, items);
      case Id(id) => r := MapGetValue(b, id, btype, items);
      case NoKey => r := None;
    }
  }

  /** The readers of a map or an object agree: the k-th step of the iterator, the read at position k + 1, and,
      as no key occurs twice, the search for the key these two find. */
  method PairReadersAgree(btype: byte, b: bytes, k: nat, ghost items: seq<Item>)
    returns (sequential: Option<(Key, Value)>, positional: Option<(Key, Value)>, keyed: Option<Value>)
    requires btype == BINN_MAP || btype == BINN_OBJECT
    requires Serialized(b, btype, items) && DistinctKeys(items)
    ensures sequential == positional && (sequential.Some? <==> k < |items|)
    ensures sequential.Some? ==>
              sequential.value.0 == items[k].key && keyed == Some(sequential.value.1) == ValueOf(items[k])
  {
    sequential := SequentialPair(btype, b, k, items);
    positional := ReadPair(btype, b, k + 1, btype, items);
    keyed := None;
    if sequential.Some? {
      assert ItemShaped(btype, items[k]);
      FindOwn(items, k);
      keyed := KeyedValue(btype, b, sequential.value.0, items);
    }
  }
}
