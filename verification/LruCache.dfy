/** The least-recently-used schema cache (backend/database/schema_create_cache.cc). */
module LruCache {
  import opened Collections

  type CacheKey = string

  datatype Item<T> = Item(key: CacheKey, entry: T)

  // ---------------------------------------------------------------------------
  // The cache as a list of items, the most recently used first
  // ---------------------------------------------------------------------------

  /** The position of the key, or the length if it is not there. */
  function Find<T>(items: seq<Item<T>>, key: CacheKey): (i: nat)
    ensures i <= |items| && (i < |items| ==> items[i].key == key) && forall j :: 0 <= j < i ==> items[j].key != key
  {
    if items == [] || items[0].key == key then 0 else 1 + Find(items[1..], key)
  }

  /** The items without the one at `i`. */
  function Others<T>(items: seq<T>, i: nat): seq<T>
    requires i < |items|
  {
    items[..i] + items[i + 1..]
  }

  function Take<T>(s: seq<T>, n: nat): seq<T> {
    if n < |s| then s[..n] else s
  }

  function LookedUp<T>(items: seq<Item<T>>, key: CacheKey): seq<Item<T>> {
    var i := Find(items, key);
    if i < |items| then [items[i]] + Others(items, i) else items
  }

  function Inserted<T>(items: seq<Item<T>>, key: CacheKey, entry: T, capacity: nat): seq<Item<T>> {
    var i := Find(items, key);
    if i < |items| then [Item(key, entry)] + Others(items, i) else Take([Item(key, entry)] + items, capacity)
  }

  // ---------------------------------------------------------------------------
  // The linked list and its index
  // ---------------------------------------------------------------------------

  function ItemsOf<T>(lru: seq<nat>, nodes: map<nat, Item<T>>): (items: seq<Item<T>>)
    requires forall n :: n in lru ==> n in nodes
    ensures |items| == |lru|
  {
    seq(|lru|, i requires 0 <= i < |lru| => assert lru[i] in lru; nodes[lru[i]])
  }

  /** Every node of the list has a key of its own, and the index finds it by that key. */
  ghost predicate Linked<T>(lru: seq<nat>, nodes: map<nat, Item<T>>, index: map<CacheKey, nat>) {
    && Distinct(lru)
    && (forall n :: n in lru <==> n in nodes)
    && (forall n :: n in nodes ==> nodes[n].key in index && index[nodes[n].key] == n)
    && (forall k :: k in index ==> index[k] in nodes && nodes[index[k]].key == k)
  }

  function NodePosition(lru: seq<nat>, node: nat): (i: nat)
    requires node in lru
    ensures i < |lru| && lru[i] == node
  {
    if lru[0] == node then 0 else 1 + NodePosition(lru[1..], node)
  }

  /** `splice` of one node to the front. */
  function Spliced(lru: seq<nat>, node: nat): seq<nat>
    requires node in lru
  {
    [node] + Others(lru, NodePosition(lru, node))
  }

  lemma FindIsNode<T>(lru: seq<nat>, nodes: map<nat, Item<T>>, index: map<CacheKey, nat>, key: CacheKey)
    requires Linked(lru, nodes, index)
    ensures key in index <==> Find(ItemsOf(lru, nodes), key) < |lru|
    ensures key in index ==> index[key] in lru && NodePosition(lru, index[key]) == Find(ItemsOf(lru, nodes), key)
  {
    var items := ItemsOf(lru, nodes);
    var i := Find(items, key);
    if i < |lru| {
      assert lru[i] in lru && items[i] == nodes[lru[i]];
    }
    if key in index {
      var p := NodePosition(lru, index[key]);
      assert items[p] == nodes[lru[p]];
    }
  }

  lemma OthersMembers(lru: seq<nat>, i: nat)
    requires Distinct(lru) && i < |lru|
    ensures forall n :: n in Others(lru, i) <==> n in lru && n != lru[i]
    ensures Distinct(Others(lru, i))
  {
    forall n | n in lru && n != lru[i] ensures n in Others(lru, i) {
      var j :| 0 <= j < |lru| && lru[j] == n;
      assert Others(lru, i)[if j < i then j else j - 1] == n;
    }
  }

  lemma ItemsWithout<T>(lru: seq<nat>, nodes: map<nat, Item<T>>, i: nat)
    requires (forall n :: n in lru ==> n in nodes) && i < |lru|
    ensures (forall n :: n in Others(lru, i) ==> n in nodes) &&
            ItemsOf(Others(lru, i), nodes) == Others(ItemsOf(lru, nodes), i)
  {
    assert forall n :: n in Others(lru, i) ==> n in lru;
  }

  /** Items depend only on the nodes of the list. */
  lemma ItemsSame<T>(lru: seq<nat>, a: map<nat, Item<T>>, b: map<nat, Item<T>>)
    requires forall n :: n in lru ==> n in a && n in b && a[n] == b[n]
    ensures ItemsOf(lru, a) == ItemsOf(lru, b)
  {
    forall i | 0 <= i < |lru| ensures ItemsOf(lru, a)[i] == ItemsOf(lru, b)[i] {
      assert lru[i] in lru;
    }
  }

  lemma ItemsFront<T>(node: nat, lru: seq<nat>, nodes: map<nat, Item<T>>)
    requires node in nodes && forall n :: n in lru ==> n in nodes
    ensures (forall n :: n in [node] + lru ==> n in nodes) &&
            ItemsOf([node] + lru, nodes) == [nodes[node]] + ItemsOf(lru, nodes)
  {
  }

  lemma SplicedNodes(lru: seq<nat>, node: nat)
    requires Distinct(lru) && node in lru
    ensures Distinct(Spliced(lru, node)) && |Spliced(lru, node)| == |lru|
    ensures forall n :: n in Spliced(lru, node) <==> n in lru
  {
    OthersMembers(lru, NodePosition(lru, node));
  }

  /** Moving a node to the front moves its item, and keeps list and index linked. */
  lemma SplicedItems<T>(lru: seq<nat>, nodes: map<nat, Item<T>>, index: map<CacheKey, nat>, node: nat)
    requires Linked(lru, nodes, index) && node in lru
    ensures Linked(Spliced(lru, node), nodes, index) && |Spliced(lru, node)| == |lru|
    ensures ItemsOf(Spliced(lru, node), nodes) == [nodes[node]] + Others(ItemsOf(lru, nodes), NodePosition(lru, node))
  {
    hide ItemsOf, Others, Distinct;
    var i := NodePosition(lru, node);
    SplicedNodes(lru, node);
    ItemsWithout(lru, nodes, i);
    ItemsFront(node, Others(lru, i), nodes);
  }

  class SchemaCreateCache<T> {
    const capacity: nat
    var lru: seq<nat>
    var nodes: map<nat, Item<T>>
    var index: map<CacheKey, nat>
    var nextNode: nat
    var hits: nat
    var misses: nat

    ghost predicate Valid()
      reads this
    {
      && Linked(lru, nodes, index) && |lru| <= capacity
      && (forall n :: n in lru ==> n < nextNode)
    }

    /** The cached schemas, the most recently used first. */
    ghost function Items(): seq<Item<T>>
      requires Valid()
      reads this
    {
      ItemsOf(lru, nodes)
    }

    constructor (capacity: nat)
      ensures Valid() && Items() == [] && this.capacity == capacity && hits == 0 && misses == 0
    {
      this.capacity := capacity;
      lru, nodes, index, nextNode, hits, misses := [], map[], map[], 0, 0, 0;
    }

    method Lookup(key: CacheKey) returns (r: Option<T>)
      requires Valid()
      modifies this
      ensures Valid() && Items() == LookedUp(old(Items()), key)
      ensures var i := Find(old(Items()), key);
        if i < |old(Items())| then r == Some(old(Items())[i].entry) && hits == old(hits) + 1 && misses == old(misses)
        else r == None && misses == old(misses) + 1 && hits == old(hits)
    {
      FindIsNode(lru, nodes, index, key);
      if key !in index {
        misses := misses + 1;
        return None;
      }
      hits := hits + 1;
      SplicedItems(lru, nodes, index, index[key]);
      lru := Spliced(lru, index[key]);
      r := Some(nodes[index[key]].entry);
    }

    method Insert(key: CacheKey, entry: T)
      requires Valid()
      modifies this
      ensures Valid() && Items() == Inserted(old(Items()), key, entry, capacity) && hits == old(hits) &&
              misses == old(misses)
    {
      hide ItemsOf, Others, Distinct, Spliced, NodePosition;
      FindIsNode(lru, nodes, index, key);
      if key in index {
        var node := index[key];
        Reentered(lru, nodes, index, node, Item(key, entry));
        nodes := nodes[node := Item(key, entry)];
        SplicedItems(lru, nodes, index, node);
        SplicedNodes(lru, node);
        lru := Spliced(lru, node);
        return;
      }
      AddedItems(lru, nodes, index, nextNode, Item(key, entry));
      lru, nodes, index, nextNode := [nextNode] + lru, nodes[nextNode := Item(key, entry)], index[key := nextNode],
        nextNode + 1;
      ghost var more := lru;
      Evict();
      assert forall n :: n in lru ==> n in more;
    }

    /** Drops the least recently used items that are over capacity. */
    method Evict()
      requires Linked(lru, nodes, index)
      modifies this`lru, this`nodes, this`index
      ensures Linked(lru, nodes, index) && ItemsOf(lru, nodes) == Take(old(ItemsOf(lru, nodes)), capacity) &&
              lru <= old(lru)
    {
      hide ItemsOf, Distinct;
      ghost var all := ItemsOf(lru, nodes);
      assert all[..|lru|] == all;
      while |lru| > capacity
        invariant Linked(lru, nodes, index) && lru <= old(lru) && ItemsOf(lru, nodes) == all[..|lru|]
        invariant |lru| >= capacity || |lru| == |all|
        decreases |lru|
      {
        DroppedItems(lru, nodes, index);
        var last := lru[|lru| - 1];
        index := index - {nodes[last].key};
        nodes := nodes - {last};
        lru := lru[..|lru| - 1];
      }
    }
  }

  /** Replacing a node's entry keeps its key. */
  lemma Reentered<T>(lru: seq<nat>, nodes: map<nat, Item<T>>, index: map<CacheKey, nat>, node: nat, item: Item<T>)
    requires Linked(lru, nodes, index) && node in lru && item.key == nodes[node].key
    ensures Linked(lru, nodes[node := item], index)
    ensures Others(ItemsOf(lru, nodes[node := item]), NodePosition(lru, node)) ==
            Others(ItemsOf(lru, nodes), NodePosition(lru, node))
  {
    hide ItemsOf, Others;
    var i := NodePosition(lru, node);
    OthersMembers(lru, i);
    ItemsWithout(lru, nodes, i);
    ItemsWithout(lru, nodes[node := item], i);
    ItemsSame(Others(lru, i), nodes, nodes[node := item]);
  }

  lemma AddedItems<T>(lru: seq<nat>, nodes: map<nat, Item<T>>, index: map<CacheKey, nat>, node: nat, item: Item<T>)
    requires Linked(lru, nodes, index) && node !in lru && item.key !in index
    ensures Linked([node] + lru, nodes[node := item], index[item.key := node])
    ensures ItemsOf([node] + lru, nodes[node := item]) == [item] + ItemsOf(lru, nodes)
  {
    assert forall n :: n in [node] + lru <==> n == node || n in lru;
  }

  /** `pop_back`, and the erased index entry. */
  lemma DroppedItems<T>(lru: seq<nat>, nodes: map<nat, Item<T>>, index: map<CacheKey, nat>)
    requires Linked(lru, nodes, index) && lru != []
    ensures lru[|lru| - 1] in nodes
    ensures var last := lru[|lru| - 1];
      && Linked(lru[..|lru| - 1], nodes - {last}, index - {nodes[last].key})
      && ItemsOf(lru[..|lru| - 1], nodes - {last}) == ItemsOf(lru, nodes)[..|lru| - 1]
  {
    hide ItemsOf, Others;
    var i := |lru| - 1;
    assert Others(lru, i) == lru[..i] by { WithoutLast(lru); }
    assert Others(ItemsOf(lru, nodes), i) == ItemsOf(lru, nodes)[..i] by { WithoutLast(ItemsOf(lru, nodes)); }
    OthersMembers(lru, i);
    ItemsWithout(lru, nodes, i);
    ItemsSame(lru[..i], nodes, nodes - {lru[i]});
  }

  lemma WithoutLast<T>(s: seq<T>)
    requires s != []
    ensures Others(s, |s| - 1) == s[..|s| - 1]
  {
  }

  // ---------------------------------------------------------------------------
  // Every run keeps the most recently used keys
  // ---------------------------------------------------------------------------

  datatype Event<T> = Looked(key: CacheKey) | Put(key: CacheKey, entry: T)

  /** The items after a run of the cache. */
  function ItemsAfter<T>(events: seq<Event<T>>, capacity: nat): seq<Item<T>> {
    if events == [] then []
    else
      var items := ItemsAfter(events[..|events| - 1], capacity);
      match events[|events| - 1]
      case Looked(key) => LookedUp(items, key)
      case Put(key, entry) => Inserted(items, key, entry, capacity)
  }

  function KeyPosition(keys: seq<CacheKey>, key: CacheKey): (i: nat)
    requires key in keys
    ensures i < |keys| && keys[i] == key
  {
    if keys[0] == key then 0 else 1 + KeyPosition(keys[1..], key)
  }

  function Used(keys: seq<CacheKey>, key: CacheKey): seq<CacheKey> {
    [key] + if key in keys then Others(keys, KeyPosition(keys, key)) else keys
  }

  /** Every key ever inserted, the most recently used first; nothing is evicted. A lookup uses a key if it hits. */
  function Recency<T>(events: seq<Event<T>>, capacity: nat): seq<CacheKey> {
    if events == [] then []
    else
      var keys := Recency(events[..|events| - 1], capacity);
      match events[|events| - 1]
      case Looked(key) => if key in Take(keys, capacity) then Used(keys, key) else keys
      case Put(key, _) => Used(keys, key)
  }

  /** The entry last inserted under each key. */
  function Latest<T>(events: seq<Event<T>>): map<CacheKey, T> {
    if events == [] then map[]
    else
      match events[|events| - 1]
      case Looked(_) => Latest(events[..|events| - 1])
      case Put(key, entry) => Latest(events[..|events| - 1])[key := entry]
  }

  function KeysOf<T>(items: seq<Item<T>>): (keys: seq<CacheKey>)
    ensures |keys| == |items|
  {
    seq(|items|, i requires 0 <= i < |items| => items[i].key)
  }

  lemma UsedKeys(keys: seq<CacheKey>, key: CacheKey)
    requires Distinct(keys)
    ensures Distinct(Used(keys, key))
  {
  }

  lemma TakeBefore<T>(x: T, s: seq<T>, p: nat, n: nat)
    requires p < |s|
    ensures p < n ==> Take([x] + Others(s, p), n) == [x] + Others(Take(s, n), p)
    ensures p >= n ==> Take([x] + Others(s, p), n) == Take([x] + Take(s, n), n)
  {
  }

  lemma TakeAgain<T>(x: T, s: seq<T>, n: nat)
    ensures Take([x] + s, n) == Take([x] + Take(s, n), n)
  {
  }

  lemma PositionInTake(keys: seq<CacheKey>, key: CacheKey, n: nat)
    requires Distinct(keys) && key in keys
    ensures key in Take(keys, n) <==> KeyPosition(keys, key) < n
    ensures key in Take(keys, n) ==> KeyPosition(Take(keys, n), key) == KeyPosition(keys, key)
  {
    var p, some := KeyPosition(keys, key), Take(keys, n);
    assert p < n ==> some[p] == key;
  }

  /** Using a key within the first `n`, or one outside them. */
  lemma UsedTake(keys: seq<CacheKey>, key: CacheKey, n: nat)
    requires Distinct(keys)
    ensures Take(Used(keys, key), n) ==
            if key in Take(keys, n) then [key] + Others(Take(keys, n), KeyPosition(Take(keys, n), key))
            else Take([key] + Take(keys, n), n)
  {
    hide Others, KeyPosition, Distinct;
    if key in keys {
      PositionInTake(keys, key, n);
      TakeBefore(key, keys, KeyPosition(keys, key), n);
    } else {
      TakeAgain(key, keys, n);
    }
  }

  lemma FindIsPosition<T>(items: seq<Item<T>>, key: CacheKey)
    ensures key in KeysOf(items) <==> Find(items, key) < |items|
    ensures key in KeysOf(items) && Distinct(KeysOf(items)) ==> KeyPosition(KeysOf(items), key) == Find(items, key)
  {
    var i := Find(items, key);
    if i < |items| {
      assert KeysOf(items)[i] == key;
    }
    if key in KeysOf(items) {
      var j := KeyPosition(KeysOf(items), key);
      assert items[j].key == key;
    }
  }

  lemma KeysOthers<T>(items: seq<Item<T>>, i: nat)
    requires i < |items|
    ensures KeysOf(Others(items, i)) == Others(KeysOf(items), i)
  {
  }

  lemma TakeDistinct(keys: seq<CacheKey>, n: nat)
    requires Distinct(keys)
    ensures Distinct(Take(keys, n))
  {
  }

  /** One operation, on the cache and on the recency list. */
  lemma LookedStep<T>(items: seq<Item<T>>, keys: seq<CacheKey>, key: CacheKey, n: nat)
    requires Distinct(keys) && KeysOf(items) == Take(keys, n)
    ensures KeysOf(LookedUp(items, key)) == Take(if key in Take(keys, n) then Used(keys, key) else keys, n)
  {
    hide Take;
    TakeDistinct(keys, n);
    FindIsPosition(items, key);
    UsedTake(keys, key, n);
    var i := Find(items, key);
    if i < |items| {
      KeysOthers(items, i);
    }
  }

  lemma PutStep<T>(items: seq<Item<T>>, keys: seq<CacheKey>, key: CacheKey, entry: T, n: nat)
    requires Distinct(keys) && KeysOf(items) == Take(keys, n)
    ensures KeysOf(Inserted(items, key, entry, n)) == Take(Used(keys, key), n)
  {
    hide Take, Others, KeysOf, Distinct, Used, Find, KeyPosition;
    TakeDistinct(keys, n);
    FindIsPosition(items, key);
    UsedTake(keys, key, n);
    var i, first := Find(items, key), Item(key, entry);
    if i < |items| {
      KeysOthers(items, i);
      KeysFront(first, Others(items, i));
    } else {
      KeysFront(first, items);
      KeysTake([first] + items, n);
    }
  }

  lemma KeysFront<T>(item: Item<T>, items: seq<Item<T>>)
    ensures KeysOf([item] + items) == [item.key] + KeysOf(items)
  {
  }

  lemma KeysTake<T>(items: seq<Item<T>>, n: nat)
    ensures KeysOf(Take(items, n)) == Take(KeysOf(items), n)
  {
  }

  ghost predicate EntriesAre<T>(items: seq<Item<T>>, latest: map<CacheKey, T>) {
    forall i :: 0 <= i < |items| ==> items[i].key in latest && items[i].entry == latest[items[i].key]
  }

  /** Over every run the cache holds the `capacity` most recently used keys, in order, each with its latest entry. */
  lemma {:induction false} KeepsMostRecentlyUsed<T>(events: seq<Event<T>>, capacity: nat)
    ensures var items, keys := ItemsAfter(events, capacity), Recency(events, capacity);
      Distinct(keys) && KeysOf(items) == Take(keys, capacity) && EntriesAre(items, Latest(events))
    decreases |events|
  {
    hide Take, Used, LookedUp, Inserted, KeysOf, Distinct, EntriesAre;
    if events == [] {
      StartsEmpty<T>(capacity);
    } else {
      var front, e := events[..|events| - 1], events[|events| - 1];
      KeepsMostRecentlyUsed(front, capacity);
      var items, keys := ItemsAfter(front, capacity), Recency(front, capacity);
      UsedKeys(keys, e.key);
      match e
      case Looked(key) =>
        LookedStep(items, keys, key, capacity);
        LookedEntries(items, Latest(front), key);
      case Put(key, entry) =>
        PutStep(items, keys, key, entry, capacity);
        PutEntries(items, Latest(front), key, entry, capacity, keys);
    }
  }

  lemma StartsEmpty<T>(capacity: nat)
    ensures Distinct<CacheKey>([]) && KeysOf<T>([]) == Take([], capacity) && EntriesAre<T>([], map[])
  {
  }

  lemma LookedEntries<T>(items: seq<Item<T>>, latest: map<CacheKey, T>, key: CacheKey)
    requires EntriesAre(items, latest)
    ensures EntriesAre(LookedUp(items, key), latest)
  {
    var after, p := LookedUp(items, key), Find(items, key);
    forall i | 0 <= i < |after| ensures after[i] in items {
      if p < |items| {
        assert after[i] == items[if i == 0 then p else if i - 1 < p then i - 1 else i];
      }
    }
  }

  lemma PutEntries<T>(items: seq<Item<T>>, latest: map<CacheKey, T>, key: CacheKey, entry: T, n: nat,
                      keys: seq<CacheKey>)
    requires KeysOf(items) == Take(keys, n) && Distinct(keys)
    requires EntriesAre(items, latest)
    ensures EntriesAre(Inserted(items, key, entry, n), latest[key := entry])
  {
    TakeDistinct(keys, n);
    var after, p := Inserted(items, key, entry, n), Find(items, key);
    forall i | 0 <= i < |after|
      ensures after[i].key in latest[key := entry] && after[i].entry == latest[key := entry][after[i].key]
    {
      if i > 0 && p < |items| {
        var j := if i - 1 < p then i - 1 else i;
        assert after[i] == items[j];
        assert KeysOf(items)[j] != KeysOf(items)[p];
      }
    }
  }

  // ---------------------------------------------------------------------------
  // What "most recently used" means
  // ---------------------------------------------------------------------------

  /** Event `a` of the run uses the key: it inserts it, or looks it up and finds it. */
  ghost predicate Uses<T>(events: seq<Event<T>>, capacity: nat, a: nat, key: CacheKey)
    requires a < |events|
  {
    events[a].key == key && (events[a].Put? || key in KeysOf(ItemsAfter(events[..a], capacity)))
  }

  /** `c` has been used after the last use of `d`. */
  ghost predicate UsedSince<T>(events: seq<Event<T>>, capacity: nat, c: CacheKey, d: CacheKey) {
    exists a: nat :: a < |events| && Uses(events, capacity, a, c) &&
                     forall b: nat :: a <= b < |events| ==> !Uses(events, capacity, b, d)
  }

  lemma UsedSinceFront<T>(events: seq<Event<T>>, capacity: nat, c: CacheKey, d: CacheKey)
    requires events != [] && UsedSince(events[..|events| - 1], capacity, c, d)
    requires !Uses(events, capacity, |events| - 1, d)
    ensures UsedSince(events, capacity, c, d)
  {
    hide KeysOf, ItemsAfter;
    var front := events[..|events| - 1];
    forall b: nat, key | b < |front| ensures Uses(front, capacity, b, key) <==> Uses(events, capacity, b, key) {
      assert front[..b] == events[..b];
    }
    var a: nat :| a < |front| && Uses(front, capacity, a, c) &&
                  forall b: nat :: a <= b < |front| ==> !Uses(front, capacity, b, d);
  }

  /** Where a key other than the one used now stood before. */
  lemma UsedAt(keys: seq<CacheKey>, key: CacheKey, i: nat) returns (before: nat)
    requires Distinct(keys) && 0 < i < |Used(keys, key)|
    ensures before < |keys| && keys[before] == Used(keys, key)[i] && Used(keys, key)[i] != key
    ensures before == if key in keys && KeyPosition(keys, key) < i then i else i - 1
  {
    before := if key in keys && KeyPosition(keys, key) < i then i else i - 1;
  }

  /**
   * The cache is the first `capacity` of the keys ever inserted, listed such that each was
   * used after the last use of every key after it.
   */
  lemma {:induction false} ListedByUse<T>(events: seq<Event<T>>, capacity: nat, i: nat, j: nat)
    requires i < j < |Recency(events, capacity)|
    ensures var keys, items := Recency(events, capacity), ItemsAfter(events, capacity);
      && UsedSince(events, capacity, keys[i], keys[j])
      && |items| == (if capacity < |keys| then capacity else |keys|)
      && forall k :: 0 <= k < |items| ==> items[k].key == keys[k]
    decreases |events|
  {
    hide KeysOf, ItemsAfter, Used, LookedUp, Inserted, EntriesAre;
    KeepsMostRecentlyUsed(events, capacity);
    FirstKeys(ItemsAfter(events, capacity), Recency(events, capacity), capacity);
    var n := |events| - 1;
    var front, key := events[..n], events[n].key;
    KeepsMostRecentlyUsed(front, capacity);
    var keys := Recency(front, capacity);
    if events[n].Put? || key in Take(keys, capacity) {
      assert Uses(events, capacity, n, key);
      var j' := UsedAt(keys, key, j);
      if i > 0 {
        var i' := UsedAt(keys, key, i);
        ListedByUse(front, capacity, i', j');
        UsedSinceFront(events, capacity, keys[i'], keys[j']);
      } else {
        assert Used(keys, key)[0] == key by { UsedFirst(keys, key); }
      }
    } else {
      ListedByUse(front, capacity, i, j);
      UsedSinceFront(events, capacity, keys[i], keys[j]);
    }
  }

  lemma UsedFirst(keys: seq<CacheKey>, key: CacheKey)
    ensures Used(keys, key)[0] == key
  {
  }

  lemma FirstKeys<T>(items: seq<Item<T>>, keys: seq<CacheKey>, capacity: nat)
    requires KeysOf(items) == Take(keys, capacity)
    ensures |items| == (if capacity < |keys| then capacity else |keys|)
    ensures forall k :: 0 <= k < |items| ==> items[k].key == keys[k]
  {
    forall k | 0 <= k < |items| ensures items[k].key == keys[k] {
      assert KeysOf(items)[k] == items[k].key;
    }
  }

  ghost predicate Puts<T>(events: seq<Event<T>>, key: CacheKey) {
    exists a :: 0 <= a < |events| && events[a].Put? && events[a].key == key
  }

  /** The keys listed are those ever inserted. */
  lemma {:induction false} ListedAreInserted<T>(events: seq<Event<T>>, capacity: nat, key: CacheKey)
    ensures key in Recency(events, capacity) <==> Puts(events, key)
    decreases |events|
  {
    hide Used, Take;
    if events != [] {
      var n := |events| - 1;
      var front := events[..n];
      ListedAreInserted(front, capacity, key);
      var keys := Recency(front, capacity);
      UsedMembers(keys, events[n].key, key);
      TakeMembers(keys, capacity, key);
      assert Puts(events, key) <==> Puts(front, key) || (events[n].Put? && events[n].key == key) by {
        if a :| 0 <= a < |events| && events[a].Put? && events[a].key == key {
          assert a < n ==> front[a] == events[a];
        }
        if a :| 0 <= a < |front| && front[a].Put? && front[a].key == key {
          assert events[a] == front[a];
        }
      }
    }
  }

  lemma TakeMembers(keys: seq<CacheKey>, n: nat, key: CacheKey)
    ensures key in Take(keys, n) ==> key in keys
  {
  }

  /** An entry is the one inserted last under its key. */
  lemma {:induction false} LatestIsLast<T>(events: seq<Event<T>>, a: nat)
    requires a < |events| && events[a].Put?
    requires forall b :: a < b < |events| && events[b].Put? ==> events[b].key != events[a].key
    ensures events[a].key in Latest(events) && Latest(events)[events[a].key] == events[a].entry
    decreases |events|
  {
    if a < |events| - 1 {
      LatestIsLast(events[..|events| - 1], a);
    }
  }

  lemma UsedMembers(keys: seq<CacheKey>, key: CacheKey, c: CacheKey)
    ensures c in Used(keys, key) <==> c == key || c in keys
  {
    if c in keys && c != key {
      var i :| 0 <= i < |keys| && keys[i] == c;
      if key in keys {
        var p := KeyPosition(keys, key);
        assert Others(keys, p)[if i < p then i else i - 1] == c;
      }
    }
  }
}
