/** The sets of a container, seen as a map: over every run of them a key has the value first stored under it,
    and only such a key has one. BinnTrace ties the runs here to runs of calls on the structure. */
module BinnRuns {
  import opened Bytes
  import opened BinnContainer

  /** What a call on the structure amounts to: an item that can be written and has room, to be stored unless
      its key is taken; or nothing, for a refused argument or for saving the header. */
  datatype Call = Put(key: Key, val: bytes) | Nothing

  /** A call stores an item: the items of a list have no key that could be taken. */
  predicate Stores(items: seq<Item>, c: Call) {
    c.Put? && (c.key.NoKey? || Find(items, c.key).None?)
  }

  /** The items after a call, as the contracts of the structure state it. */
  function AfterCall(items: seq<Item>, c: Call): seq<Item> {
    if Stores(items, c) then items + [Item(c.key, c.val)] else items
  }

  function AfterCalls(items: seq<Item>, calls: seq<Call>): seq<Item>
    decreases |calls|
  {
    if calls == [] then items else AfterCalls(AfterCall(items, calls[0]), calls[1..])
  }

  /** The items the calls store, in the order of the calls. */
  function StoredBy(items: seq<Item>, calls: seq<Call>): seq<Item>
    decreases |calls|
  {
    if calls == [] then []
    else
      (if Stores(items, calls[0]) then [Item(calls[0].key, calls[0].val)] else []) +
      StoredBy(AfterCall(items, calls[0]), calls[1..])
  }

  /** Nothing is ever removed or reordered. */
  lemma {:induction false} RunAppends(items: seq<Item>, calls: seq<Call>)
    ensures AfterCalls(items, calls) == items + StoredBy(items, calls)
    decreases |calls|
  {
    if calls != [] {
      var next := AfterCall(items, calls[0]);
      RunAppends(next, calls[1..]);
      var now := if Stores(items, calls[0]) then [Item(calls[0].key, calls[0].val)] else [];
      assert next == items + now;
      assert items + now + StoredBy(next, calls[1..]) == items + (now + StoredBy(next, calls[1..]));
    }
  }

  /** The first value put under the key. */
  function FirstSet(calls: seq<Call>, key: Key): Option<bytes> {
    if calls == [] then None
    else if calls[0].Put? && SameKey(calls[0].key, key) then Some(calls[0].val)
    else FirstSet(calls[1..], key)
  }

  function Stored(items: seq<Item>, key: Key): Option<bytes> {
    match Find(items, key)
    case None => None
    case Some(i) => Some(items[i].val)
  }

  lemma SameKeyIsEquivalence(a: Key, b: Key, c: Key)
    ensures SameKey(a, a)
    ensures SameKey(a, b) ==> SameKey(b, a)
    ensures SameKey(a, b) && SameKey(b, c) ==> SameKey(a, c)
  {
  }

  /** Adding an item changes what is stored only under its own key, and only when nothing was. */
  lemma {:induction false} StoredSnoc(items: seq<Item>, it: Item, key: Key)
    ensures Stored(items + [it], key) ==
              if Stored(items, key).Some? then Stored(items, key)
              else if SameKey(it.key, key) then Some(it.val) else None
  {
    var more := items + [it];
    if Find(items, key).Some? {
      FindIs(more, key, Find(items, key).value);
    } else if SameKey(it.key, key) {
      FindIs(more, key, |items|);
    } else {
      assert Find(more, key).None?;
    }
  }

  /** Same keys find the same. */
  lemma FindSame(items: seq<Item>, a: Key, b: Key)
    requires SameKey(a, b)
    ensures Find(items, a) == Find(items, b)
  {
    var r := Find(items, a);
    if r.Some? {
      FindIs(items, b, r.value);
    } else {
      var s := Find(items, b);
      if s.Some? { SameKeyIsEquivalence(items[s.value].key, b, a); }
    }
  }

  /** The container refines a map from keys, up to case, to values: what was stored before the run stays, and
      otherwise the first put of the run decides. */
  lemma {:induction false} RunRefinesMap(items: seq<Item>, calls: seq<Call>, key: Key)
    ensures Stored(AfterCalls(items, calls), key) ==
              if Stored(items, key).Some? then Stored(items, key) else FirstSet(calls, key)
    decreases |calls|
  {
    if calls != [] {
      var c := calls[0];
      RunRefinesMap(AfterCall(items, c), calls[1..], key);
      if c.Put? {
        if SameKey(c.key, key) { FindSame(items, c.key, key); }
        if Stores(items, c) { StoredSnoc(items, Item(c.key, c.val), key); }
      }
    }
  }

  /** The keys of a container under construction stay distinct. */
  lemma {:induction false} RunKeepsKeysDistinct(items: seq<Item>, calls: seq<Call>)
    requires DistinctKeys(items)
    ensures DistinctKeys(AfterCalls(items, calls))
    decreases |calls|
  {
    if calls != [] {
      RunKeepsKeysDistinct(AfterCall(items, calls[0]), calls[1..]);
    }
  }
}
