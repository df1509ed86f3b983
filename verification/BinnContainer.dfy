/** The content of a container: its items one after the other, each a key and a value. */
module BinnContainer {
  import opened Bytes
  import opened BinnFormat
  import opened BinnWrite

  /** Lists have no keys, maps have integers, objects have names. */
  datatype Key = NoKey | Id(id: int) | Name(name: bytes)

  datatype Item = Item(key: Key, val: bytes)

  predicate Int32(n: int) {
    -TWO31 <= n < TWO31
  }

  /** A C string: no byte of it is the terminator. */
  predicate CString(s: bytes) {
    0 !in s
  }

  predicate KeyOk(k: Key) {
    match k
    case NoKey => true
    case Id(id) => Int32(id)
    case Name(name) => |name| <= 255 && CString(name)
  }

  function EncodeKey(k: Key): bytes
    requires KeyOk(k)
  {
    match k
    case NoKey => []
    case Id(id) => Bytes32(Unsigned32(id))
    case Name(name) => [|name|] + name
  }

  predicate KeyFor(btype: int, k: Key) {
    if btype == BINN_MAP then k.Id? else if btype == BINN_OBJECT then k.Name? else k.NoKey?
  }

  /** e is one value that can be skipped and read. */
  predicate ValueOk(e: bytes) {
    IsValue(e) && GetValue(e, 0).Some?
  }

  predicate ItemShaped(btype: int, it: Item) {
    KeyFor(btype, it.key) && KeyOk(it.key) && |it.val| > 0
  }

  predicate ItemsShaped(btype: int, items: seq<Item>) {
    forall k :: 0 <= k < |items| ==> ItemShaped(btype, items[k])
  }

  /** Always true: mentioning it for an item brings to mind that its value is well formed. */
  predicate Recall(it: Item) {
    true
  }

  ghost predicate ItemsOk(btype: int, items: seq<Item>) {
    && ItemsShaped(btype, items)
    && forall k {:trigger Recall(items[k])} :: 0 <= k < |items| ==> ValueOk(items[k].val)
  }

  function Layout(btype: int, items: seq<Item>): (b: bytes)
    requires ItemsShaped(btype, items)
    ensures |items| <= |b|
    ensures items == [] ==> b == []
  {
    if items == [] then [] else EncodeKey(items[0].key) + items[0].val + Layout(btype, items[1..])
  }

  lemma {:induction false} LayoutSnoc(btype: int, items: seq<Item>, it: Item)
    requires ItemsShaped(btype, items) && ItemShaped(btype, it)
    ensures Layout(btype, items + [it]) == Layout(btype, items) + (EncodeKey(it.key) + it.val)
    decreases |items|
  {
    var more := items + [it];
    var end := EncodeKey(it.key) + it.val;
    assert ItemsShaped(btype, more);
    if items == [] {
      assert more[0] == it && more[1..] == [];
      assert end + [] == end == [] + end;
    } else {
      var rest := items[1..];
      LayoutSnoc(btype, rest, it);
      assert more[0] == items[0] && more[1..] == rest + [it];
      Regroup(EncodeKey(items[0].key) + items[0].val, Layout(btype, rest), end);
    }
  }

  lemma Regroup(x: bytes, y: bytes, z: bytes)
    ensures x + (y + z) == x + y + z
  {
  }

  lemma LayoutSplit(btype: int, items: seq<Item>)
    requires ItemsShaped(btype, items) && items != []
    ensures Layout(btype, items) == EncodeKey(items[0].key) + items[0].val + Layout(btype, items[1..])
    ensures |Layout(btype, items)| == |EncodeKey(items[0].key)| + |items[0].val| + |Layout(btype, items[1..])|
  {
  }

  /** Where the value of an item at p starts. */
  function ValueStart(p: nat, it: Item): nat
    requires KeyOk(it.key)
  {
    p + |EncodeKey(it.key)|
  }

  /** Item it lies at p and ends at q. */
  predicate AtItem(b: bytes, p: nat, it: Item, q: nat) {
    && KeyOk(it.key) && |it.val| > 0
    && q == ValueStart(p, it) + |it.val|
    && Holds(b, p, EncodeKey(it.key))
    && Holds(b, ValueStart(p, it), it.val)
  }

  /** Walking one item on: it lies at p, and the items after it lie where it ends. */
  lemma WalkItem(btype: int, b: bytes, p: nat, items: seq<Item>)
    requires ItemsShaped(btype, items) && items != [] && Holds(b, p, Layout(btype, items))
    ensures var q := ValueStart(p, items[0]) + |items[0].val|;
            && AtItem(b, p, items[0], q)
            && Holds(b, q, Layout(btype, items[1..]))
            && p + |Layout(btype, items)| == q + |Layout(btype, items[1..])|
  {
    var key, val, rest := EncodeKey(items[0].key), items[0].val, Layout(btype, items[1..]);
    assert Holds(b, p, key + val + rest) by { LayoutSplit(btype, items); }
    HoldsTwo(b, p, key + val, rest);
    HoldsTwo(b, p, key, val);
    LayoutSplit(btype, items);
  }

  /** A value of the container is skipped as by itself. */
  lemma SkipItem(btype: int, b: bytes, p: nat, items: seq<Item>, k: nat)
    requires ItemsOk(btype, items) && k < |items| && Holds(b, p, items[k].val)
    ensures AdvanceDataPos(b, p) == Some(p + |items[k].val|)
  {
    assert Recall(items[k]);
    SkipAt(b, p, items[k].val);
  }

  /** And read as by itself. */
  lemma ReadItem(btype: int, b: bytes, p: nat, items: seq<Item>, k: nat)
    requires ItemsOk(btype, items) && k < |items| && Holds(b, p, items[k].val)
    ensures GetValue(b, p) == ValueOf(items[k]) && ValueOf(items[k]).Some?
  {
    assert Recall(items[k]);
    GetValueAt(b, p, items[k].val);
  }

  /** Item k is of the container's kind, lies where starts says, and ends no later than the last. */
  predicate LaidAt(btype: int, b: bytes, items: seq<Item>, starts: seq<nat>, k: nat)
    requires |starts| == |items| + 1 && k < |items|
  {
    KeyFor(btype, items[k].key) && AtItem(b, starts[k], items[k], starts[k + 1]) && starts[k + 1] <= starts[|items|]
  }

  /** The items lie in b one after the other, item k from starts[k] to starts[k + 1]. */
  ghost predicate Laid(btype: int, b: bytes, items: seq<Item>, starts: seq<nat>) {
    |starts| == |items| + 1 && forall k :: 0 <= k < |items| ==> LaidAt(btype, b, items, starts, k)
  }

  /** The places of the items laid out from p. */
  function Starts(btype: int, p: nat, items: seq<Item>): (starts: seq<nat>)
    requires ItemsShaped(btype, items)
    ensures |starts| == |items| + 1 && starts[0] == p
    ensures starts[|items|] == p + |Layout(btype, items)|
    decreases |items|
  {
    if items == [] then [p]
    else
      LayoutSplit(btype, items);
      [p] + Starts(btype, ValueStart(p, items[0]) + |items[0].val|, items[1..])
  }

  lemma {:induction false} LayOutAt(btype: int, b: bytes, p: nat, items: seq<Item>, k: nat)
    requires ItemsShaped(btype, items) && Holds(b, p, Layout(btype, items)) && k < |items|
    ensures LaidAt(btype, b, items, Starts(btype, p, items), k)
    decreases k
  {
    WalkItem(btype, b, p, items);
    var q := ValueStart(p, items[0]) + |items[0].val|;
    var rest := Starts(btype, q, items[1..]);
    assert Starts(btype, p, items) == [p] + rest;
    if k > 0 {
      LayOutAt(btype, b, q, items[1..], k - 1);
      assert LaidAt(btype, b, items[1..], rest, k - 1);
    }
  }

  lemma LayOut(btype: int, b: bytes, p: nat, items: seq<Item>)
    requires ItemsShaped(btype, items) && Holds(b, p, Layout(btype, items))
    ensures Laid(btype, b, items, Starts(btype, p, items))
  {
    forall k | 0 <= k < |items|
      ensures LaidAt(btype, b, items, Starts(btype, p, items), k)
    {
      LayOutAt(btype, b, p, items, k);
    }
  }

  /** A container as it is sent. */
  function Serialize(btype: byte, items: seq<Item>): bytes
    requires ItemsShaped(btype, items) && |Layout(btype, items)| < SIZE_LIMIT
  {
    EncodeHeader(btype, |items|, |Layout(btype, items)|) + Layout(btype, items)
  }

  /** b begins with the serialized container of these items. */
  ghost predicate Serialized(b: bytes, btype: byte, items: seq<Item>) {
    && IsContainer(btype) && ItemsOk(btype, items) && |Layout(btype, items)| < SIZE_LIMIT
    && Holds(b, 0, Serialize(btype, items))
  }

  lemma SerializedParts(b: bytes, btype: byte, items: seq<Item>)
    requires Serialized(b, btype, items)
    ensures var h := HeaderLength(|items|, |Layout(btype, items)|);
            && ParseHeader(b, 0) == Some(Header(btype, |items|, h + |Layout(btype, items)|, h))
            && Holds(b, h, Layout(btype, items))
            && h + |Layout(btype, items)| == |Serialize(btype, items)|
  {
    var content := Layout(btype, items);
    var header := EncodeHeader(btype, |items|, |content|);
    HoldsTwo(b, 0, header, content);
    HeaderRoundTrip(b, 0, btype, |items|, |content|);
  }

  /** What follows the container in the block does not matter. */
  lemma LongerBlock(b: bytes, rest: bytes, btype: byte, items: seq<Item>)
    requires Serialized(b, btype, items)
    ensures Serialized(b + rest, btype, items)
  {
    var e := Serialize(btype, items);
    forall k | 0 <= k < |e|
      ensures e[k] == (b + rest)[0 + k]
    {
      assert e[k] == b[0 + k];
    }
  }

  /** A serialized container is itself a value, so it can be an item of another. */
  lemma SerializedIsValue(btype: byte, items: seq<Item>)
    requires IsContainer(btype) && ItemsOk(btype, items) && |Layout(btype, items)| < SIZE_LIMIT
    ensures var e := Serialize(btype, items);
            && SerializedContainer(e) && IsValue(e)
            && GetValue(e, 0) == Some(Value(btype, |e|, |items|, e))
  {
    var e := Serialize(btype, items);
    SerializedParts(e, btype, items);
    ContainerValue(e);
  }

  // ---------------------------------------------------------------- keys

  /** Lower case, for ASCII letters. */
  function Fold(c: byte): byte {
    if 65 <= c <= 90 then c + 32 else c
  }

  function FoldAll(s: bytes): (r: bytes)
    ensures |r| == |s| && forall k :: 0 <= k < |s| ==> r[k] == Fold(s[k])
  {
    seq(|s|, k requires 0 <= k < |s| => Fold(s[k]))
  }

  /** Names compare without regard to case. */
  predicate SameName(a: bytes, b: bytes) {
    FoldAll(a) == FoldAll(b)
  }

  /** x is the small letter of the capital y. */
  predicate Small(x: byte, y: byte) {
    65 <= y <= 90 && x == y + 32
  }

  /** Two names are the same if they have the same length and at each place the same byte, or one a letter and
      the other its capital. */
  lemma SameNameIs(a: bytes, b: bytes)
    ensures SameName(a, b) <==>
              && |a| == |b|
              && forall k :: 0 <= k < |a| ==> a[k] == b[k] || Small(a[k], b[k]) || Small(b[k], a[k])
  {
    if SameName(a, b) {
      forall k | 0 <= k < |a|
        ensures a[k] == b[k] || Small(a[k], b[k]) || Small(b[k], a[k])
      {
        assert FoldAll(a)[k] == FoldAll(b)[k];
      }
    } else if |a| == |b| {
      var k :| 0 <= k < |a| && FoldAll(a)[k] != FoldAll(b)[k];
      assert !(a[k] == b[k] || Small(a[k], b[k]) || Small(b[k], a[k]));
    }
  }

  predicate SameKey(a: Key, b: Key) {
    match (a, b)
    case (Name(m), Name(n)) => SameName(m, n)
    case _ => a == b
  }

  /** The value of item k. */
  function ValueOf(it: Item): Option<Value> {
    GetValue(it.val, 0)
  }

  /** The first item under the key. */
  function Find(items: seq<Item>, key: Key): (r: Option<nat>)
    ensures r.Some? ==> r.value < |items| && SameKey(items[r.value].key, key)
    ensures r.Some? ==> forall j :: 0 <= j < r.value ==> !SameKey(items[j].key, key)
    ensures r.None? ==> forall j :: 0 <= j < |items| ==> !SameKey(items[j].key, key)
  {
    if items == [] then None
    else if SameKey(items[0].key, key) then Some(0)
    else
      match Find(items[1..], key)
      case None => None
      case Some(i) => Some(i + 1)
  }

  /** The value stored under the key. */
  function Lookup(items: seq<Item>, key: Key): Option<Value> {
    match Find(items, key)
    case None => None
    case Some(i) => ValueOf(items[i])
  }

  lemma FindIs(items: seq<Item>, key: Key, i: nat)
    requires i < |items| && SameKey(items[i].key, key) && forall j :: 0 <= j < i ==> !SameKey(items[j].key, key)
    ensures Find(items, key) == Some(i)
  {
  }

  /** No two items under the same key, where there are keys. */
  ghost predicate DistinctKeys(items: seq<Item>) {
    forall i, j :: 0 <= i < j < |items| && SameKey(items[i].key, items[j].key) ==> items[j].key.NoKey?
  }

  /** A keyed search finds item k under the key of item k. */
  lemma FindOwn(items: seq<Item>, k: nat)
    requires DistinctKeys(items) && k < |items| && !items[k].key.NoKey?
    ensures Find(items, items[k].key) == Some(k)
  {
    FindIs(items, items[k].key, k);
  }
}
