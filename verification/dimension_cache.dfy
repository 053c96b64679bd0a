// The dimensions of the metric series: an LRU cache whose evicted items can be had back until they
// are removed.
module DimensionCaching {

  datatype MetricKey = MetricKey(text: string)
  datatype Dimensions = Dimensions(attributes: map<string, string>)

  type Items = map<MetricKey, Dimensions>

  // The keys of the LRU list, the most recently used first, what they hold, and the evicted items.
  datatype State = State(size: nat, order: seq<MetricKey>, items: Items, evicted: Items)

  function Without(order: seq<MetricKey>, key: MetricKey): seq<MetricKey> {
    if order == [] then []
    else if order[0] == key then Without(order[1..], key)
    else [order[0]] + Without(order[1..], key)
  }

  function Prefix(order: seq<MetricKey>, n: nat): seq<MetricKey> {
    if |order| <= n then order else order[..n]
  }

  ghost predicate Distinct(order: seq<MetricKey>) {
    forall i, j :: 0 <= i < j < |order| ==> order[i] != order[j]
  }

  ghost predicate Valid(c: State) {
    && 0 < c.size && |c.order| <= c.size
    && Distinct(c.order)
    && (forall k :: k in c.order <==> k in c.items)
    && (forall k :: k in c.items ==> k !in c.evicted)
  }

  // ---------------------------------------------------------------- the operations

  // Add of the LRU list: the oldest item makes room for a new one and goes to the evicted items.
  function Added(c: State, key: MetricKey, value: Dimensions): State
    requires |c.order| <= c.size && 0 < c.size
    requires forall k :: k in c.order ==> k in c.items
  {
    if key in c.items then
      c.(order := [key] + Without(c.order, key), items := c.items[key := value])
    else if |c.order| < c.size then
      c.(order := [key] + c.order, items := c.items[key := value])
    else
      var last := c.order[c.size - 1];
      c.(order := [key] + c.order[..c.size - 1],
         items := c.items[key := value] - {last},
         evicted := c.evicted[last := c.items[last]])
  }

  // What Get finds: everything the cache still holds, evicted or not.
  function Held(c: State): Items {
    c.evicted + c.items
  }

  // Get: an item of the LRU list becomes the most recent one; an evicted item is revived.
  function Fetched(c: State, key: MetricKey): State
    requires |c.order| <= c.size && 0 < c.size
    requires forall k :: k in c.order ==> k in c.items
  {
    if key in c.items then c.(order := [key] + Without(c.order, key))
    else if key in c.evicted then Added(c.(evicted := c.evicted - {key}), key, c.evicted[key])
    else c
  }

  // ---------------------------------------------------------------- nothing held is lost

  lemma {:induction false} WithoutMembers(order: seq<MetricKey>, key: MetricKey)
    ensures forall k :: k in Without(order, key) <==> k in order && k != key
  {
    if order != [] {
      WithoutMembers(order[1..], key);
    }
  }

  lemma {:induction false} WithoutDistinct(order: seq<MetricKey>, key: MetricKey)
    requires Distinct(order)
    ensures Distinct(Without(order, key)) && Distinct([key] + Without(order, key))
    ensures |Without(order, key)| == |order| - if key in order then 1 else 0
  {
    if order != [] {
      WithoutDistinct(order[1..], key);
      WithoutMembers(order[1..], key);
      assert order[0] !in order[1..];
    }
    WithoutMembers(order, key);
  }

  // Moving a key to the front keeps the list a list of the same keys.
  lemma ToFront(c: State, key: MetricKey, value: Dimensions)
    requires Valid(c) && key in c.items
    ensures Valid(c.(order := [key] + Without(c.order, key), items := c.items[key := value]))
  {
    WithoutMembers(c.order, key);
    WithoutDistinct(c.order, key);
  }

  // A new key in front of a list that loses its last one.
  lemma PushMembers(order: seq<MetricKey>, key: MetricKey)
    requires Distinct(order) && order != [] && key !in order
    ensures var list := [key] + order[..|order| - 1];
            && Distinct(list)
            && forall k :: k in list <==> k == key || (k in order && k != order[|order| - 1])
  {
    var n := |order| - 1;
    var list := [key] + order[..n];
    assert order == order[..n] + [order[n]];
    assert order[n] !in order[..n];
    forall k ensures k in list <==> k == key || k in order[..n] {
      assert key == list[0];
    }
  }

  lemma AddWithRoom(c: State, key: MetricKey, value: Dimensions)
    requires Valid(c) && key !in c.items && key !in c.evicted && |c.order| < c.size
    ensures Valid(Added(c, key, value))
    ensures Held(Added(c, key, value)) == Held(c)[key := value]
  {
    assert key !in c.order;
    var c' := Added(c, key, value);
    forall k ensures k in c'.order <==> k in c'.items {
      assert k in c'.order <==> k == key || k in c.order;
    }
  }

  lemma AddWithEviction(c: State, key: MetricKey, value: Dimensions)
    requires Valid(c) && key !in c.items && key !in c.evicted && |c.order| == c.size
    ensures Valid(Added(c, key, value))
  {
    assert key !in c.order;
    PushMembers(c.order, key);
  }

  lemma EvictionKeepsHeld(c: State, key: MetricKey, value: Dimensions, last: MetricKey)
    requires key !in c.items && key !in c.evicted && last in c.items
    ensures c.evicted[last := c.items[last]] + (c.items[key := value] - {last}) == Held(c)[key := value]
  {
  }

  // Whatever was held is still held, and the added item too; at most `size` items are in the list.
  lemma AddKeepsHeld(c: State, key: MetricKey, value: Dimensions)
    requires Valid(c) && key !in Held(c)
    ensures Valid(Added(c, key, value))
    ensures Held(Added(c, key, value)) == Held(c)[key := value]
    ensures key in Added(c, key, value).items
  {
    if |c.order| < c.size {
      AddWithRoom(c, key, value);
    } else {
      assert c.order[c.size - 1] in c.order;
      AddWithEviction(c, key, value);
      EvictionKeepsHeld(c, key, value, c.order[c.size - 1]);
    }
  }

  lemma Revived(c: State, key: MetricKey)
    requires Valid(c) && key in c.evicted && key !in c.items
    ensures var c' := c.(evicted := c.evicted - {key});
            && Valid(c') && key !in Held(c')
            && Held(c')[key := c.evicted[key]] == Held(c)
  {
  }

  // Get finds exactly what is held, loses nothing and brings what it found into the LRU list.
  lemma FetchKeepsHeld(c: State, key: MetricKey)
    requires Valid(c)
    ensures Valid(Fetched(c, key))
    ensures Held(Fetched(c, key)) == Held(c)
    ensures key in Held(c) ==> key in Fetched(c, key).items
    ensures key !in Held(c) ==> Fetched(c, key) == c
  {
    if key in c.items {
      ToFront(c, key, c.items[key]);
      assert c.items[key := c.items[key]] == c.items;
    } else if key in c.evicted {
      Revived(c, key);
      AddKeepsHeld(c.(evicted := c.evicted - {key}), key, c.evicted[key]);
    }
  }

  // ---------------------------------------------------------------- the list is the recent keys

  // The keys used in a run of uses, the most recent one first.
  function Recent(uses: seq<MetricKey>): seq<MetricKey> {
    if uses == [] then []
    else [uses[|uses| - 1]] + Without(Recent(uses[..|uses| - 1]), uses[|uses| - 1])
  }

  // One use of a key that is held or added: the list becomes the key followed by the others.
  ghost predicate UsedOne(c: State, key: MetricKey, c': State) {
    c'.size == c.size && c'.order == Prefix([key] + Without(c.order, key), c.size)
  }

  lemma {:induction false} WithoutAbsent(order: seq<MetricKey>, key: MetricKey)
    requires key !in order
    ensures Without(order, key) == order
  {
    if order != [] {
      WithoutAbsent(order[1..], key);
    }
  }

  lemma AddIsOneUse(c: State, key: MetricKey, value: Dimensions)
    requires Valid(c)
    ensures UsedOne(c, key, Added(c, key, value))
  {
    if key in c.items {
      WithoutDistinct(c.order, key);
    } else {
      WithoutAbsent(c.order, key);
    }
  }

  lemma FetchIsOneUse(c: State, key: MetricKey)
    requires Valid(c) && key in Held(c)
    ensures UsedOne(c, key, Fetched(c, key))
  {
    if key in c.items {
      WithoutDistinct(c.order, key);
    } else {
      AddIsOneUse(c.(evicted := c.evicted - {key}), key, c.evicted[key]);
    }
  }

  lemma PrefixBehind(k: MetricKey, a: seq<MetricKey>, b: seq<MetricKey>, n: nat)
    requires 0 < n && Prefix(a, n - 1) == Prefix(b, n - 1)
    ensures Prefix([k] + a, n) == Prefix([k] + b, n)
  {
    assert Prefix([k] + a, n) == [k] + Prefix(a, n - 1);
    assert Prefix([k] + b, n) == [k] + Prefix(b, n - 1);
  }

  // Cutting the list off before a use or after it makes no difference.
  lemma {:induction false} WithoutPrefix(order: seq<MetricKey>, key: MetricKey, n: nat)
    requires 0 < n && Distinct(order)
    ensures Prefix(Without(Prefix(order, n), key), n - 1) == Prefix(Without(order, key), n - 1)
  {
    if |order| > n {
      var rest := order[1..];
      assert order[..n][1..] == rest[..n - 1];
      if order[0] == key {
        WithoutAbsent(rest, key);
        WithoutAbsent(rest[..n - 1], key);
      } else if n > 1 {
        WithoutPrefix(rest, key, n - 1);
        PrefixBehind(order[0], Without(rest[..n - 1], key), Without(rest, key), n - 1);
      }
    }
  }

  lemma {:induction false} RecentIsDistinct(uses: seq<MetricKey>)
    ensures Distinct(Recent(uses))
    ensures forall k :: k in Recent(uses) <==> k in uses
  {
    if uses != [] {
      var n := |uses| - 1;
      RecentIsDistinct(uses[..n]);
      WithoutDistinct(Recent(uses[..n]), uses[n]);
      WithoutMembers(Recent(uses[..n]), uses[n]);
      assert uses == uses[..n] + [uses[n]];
    }
  }

  // The LRU list is the `size` keys used last, the most recent first.
  ghost predicate IsRecent(c: State, uses: seq<MetricKey>) {
    c.order == Prefix(Recent(uses), c.size)
  }

  lemma UseKeepsRecent(c: State, uses: seq<MetricKey>, key: MetricKey, c': State)
    requires 0 < c.size && IsRecent(c, uses) && UsedOne(c, key, c')
    ensures IsRecent(c', uses + [key])
  {
    RecentIsDistinct(uses);
    WithoutPrefix(Recent(uses), key, c.size);
    assert (uses + [key])[..|uses|] == uses;
    var all, cut := Without(Recent(uses), key), Without(c.order, key);
    assert Prefix([key] + all, c.size) == [key] + Prefix(all, c.size - 1);
    assert Prefix([key] + cut, c.size) == [key] + Prefix(cut, c.size - 1);
  }

  // ---------------------------------------------------------------- the object

  class Cache {
    const size: nat
    var order: seq<MetricKey>       // the LRU list
    var items: Items
    var evictedItems: Items

    ghost function View(): State
      reads this
    {
      State(size, order, items, evictedItems)
    }

    constructor (size: nat)
      requires 0 < size
      ensures View() == State(size, [], map[], map[]) && Valid(View())
    {
      this.size := size;
      order, items, evictedItems := [], map[], map[];
    }

    method RemoveEvictedItems()
      modifies this`evictedItems
      ensures View() == old(View()).(evicted := map[])
    {
      var rest := evictedItems.Keys;
      while rest != {}
        invariant evictedItems.Keys == rest
      {
        var k :| k in rest;
        evictedItems := evictedItems - {k};
        rest := rest - {k};
      }
    }

    // Add, with what the LRU list's eviction callback does.
    method Add(key: MetricKey, value: Dimensions) returns (evicted: bool)
      requires Valid(View())
      modifies this
      ensures View() == Added(old(View()), key, value)
      ensures evicted <==> key !in old(items) && |old(order)| == size
    {
      if key in items {
        order, items := [key] + Without(order, key), items[key := value];
        return false;
      }
      order, items := [key] + order, items[key := value];
      evicted := |order| > size;
      if evicted {
        var last := order[|order| - 1];
        assert last == old(order)[size - 1];
        evictedItems := evictedItems[last := items[last]];
        order, items := order[..|order| - 1], items - {last};
      }
    }

    method Get(key: MetricKey) returns (val: Dimensions, ok: bool)
      requires Valid(View())
      modifies this
      ensures View() == Fetched(old(View()), key)
      ensures ok <==> key in Held(old(View()))
      ensures ok ==> val == Held(old(View()))[key]
    {
      if key in items {
        order := [key] + Without(order, key);
        return items[key], true;
      }
      ok := key in evictedItems;
      val := if ok then evictedItems[key] else Dimensions(map[]);
      if ok {
        evictedItems := evictedItems - {key};
        var _ := Add(key, val);
      }
    }

    function Contains(key: MetricKey): (r: bool)
      reads this
      ensures r <==> key in View().items
    {
      key in items
    }
  }
}
