/**
 * The store for offloaded responses (src/server/response-resource.ts): a map and an order list that
 * together behave like one recency list with expiry.
 */
module ResourceStore {
  import opened Common
  import opened Utf8

  type Uri = string

  datatype Entry = Entry(fullText: Text, createdAt: int)

  /** An element of the recency list, least recently used first. */
  datatype Item = Item(uri: Uri, entry: Entry)

  datatype Config = Config(maxResources: nat, ttlMs: nat, maxInlineLines: nat)

  // ------------------------------------------------------------------ the recency list

  function Uris(items: seq<Item>): (r: seq<Uri>)
    ensures |r| == |items| && forall i :: 0 <= i < |r| ==> r[i] == items[i].uri
  {
    if items == [] then [] else [items[0].uri] + Uris(items[1..])
  }

  ghost predicate Distinct(items: seq<Item>) {
    forall i, j :: 0 <= i < j < |items| ==> items[i].uri != items[j].uri
  }

  predicate Expired(c: Config, e: Entry, now: int) {
    now - e.createdAt >= c.ttlMs
  }

  function Unexpired(c: Config, items: seq<Item>, now: int): seq<Item> {
    if items == [] then []
    else if Expired(c, items[0].entry, now) then Unexpired(c, items[1..], now)
    else [items[0]] + Unexpired(c, items[1..], now)
  }

  function Except(items: seq<Item>, uri: Uri): seq<Item> {
    if items == [] then []
    else if items[0].uri == uri then Except(items[1..], uri)
    else [items[0]] + Except(items[1..], uri)
  }

  lemma {:induction false} UnexpiredMembers(c: Config, items: seq<Item>, now: int)
    ensures forall x :: x in Unexpired(c, items, now) <==> x in items && !Expired(c, x.entry, now)
    ensures |Unexpired(c, items, now)| <= |items|
  {
    if items != [] {
      UnexpiredMembers(c, items[1..], now);
      assert items == [items[0]] + items[1..];
    }
  }

  lemma {:induction false} ExceptMembers(items: seq<Item>, uri: Uri)
    ensures forall x :: x in Except(items, uri) <==> x in items && x.uri != uri
    ensures |Except(items, uri)| <= |items|
  {
    if items != [] {
      ExceptMembers(items[1..], uri);
      assert items == [items[0]] + items[1..];
    }
  }

  /** The n most recently used items. */
  function Newest(items: seq<Item>, n: nat): seq<Item> {
    if |items| <= n then items else items[|items| - n..]
  }

  function Lookup(items: seq<Item>, uri: Uri): Option<Entry> {
    if items == [] then None
    else if items[0].uri == uri then Some(items[0].entry)
    else Lookup(items[1..], uri)
  }

  /** Expired items go first, then the least recently used ones until there is room. */
  function Store(c: Config, items: seq<Item>, item: Item, now: int): seq<Item>
    requires c.maxResources >= 1
  {
    Except(Newest(Unexpired(c, items, now), c.maxResources - 1), item.uri) + [item]
  }

  function Read(c: Config, items: seq<Item>, uri: Uri, now: int): (seq<Item>, Option<Entry>) {
    match Lookup(items, uri)
    case None => (items, None)
    case Some(e) =>
      if Expired(c, e, now) then (Except(items, uri), None)
      else (Except(items, uri) + [Item(uri, e)], Some(e))
  }

  lemma {:induction false} LookupIsMembership(items: seq<Item>, uri: Uri)
    ensures Lookup(items, uri) == None <==> forall x :: x in items ==> x.uri != uri
    ensures Lookup(items, uri).Some? ==> Item(uri, Lookup(items, uri).value) in items
  {
    if items != [] {
      LookupIsMembership(items[1..], uri);
      assert items == [items[0]] + items[1..];
    }
  }

  lemma LookupOfDistinct(items: seq<Item>, x: Item)
    requires Distinct(items) && x in items
    ensures Lookup(items, x.uri) == Some(x.entry)
  {
    LookupIsMembership(items, x.uri);
  }

  // ------------------------------------------------------------------ filters keep order

  lemma {:induction false} UnexpiredConcat(c: Config, a: seq<Item>, b: seq<Item>, now: int)
    ensures Unexpired(c, a + b, now) == Unexpired(c, a, now) + Unexpired(c, b, now)
  {
    if a == [] {
      assert a + b == b;
    } else {
      assert (a + b)[1..] == a[1..] + b;
      UnexpiredConcat(c, a[1..], b, now);
    }
  }

  lemma {:induction false} ExceptConcat(a: seq<Item>, b: seq<Item>, uri: Uri)
    ensures Except(a + b, uri) == Except(a, uri) + Except(b, uri)
  {
    if a == [] {
      assert a + b == b;
    } else {
      assert (a + b)[1..] == a[1..] + b;
      ExceptConcat(a[1..], b, uri);
    }
  }

  lemma {:induction false} UnexpiredDistinct(c: Config, items: seq<Item>, now: int)
    requires Distinct(items)
    ensures Distinct(Unexpired(c, items, now))
  {
    if items != [] {
      UnexpiredDistinct(c, items[1..], now);
      UnexpiredMembers(c, items[1..], now);
      assert forall x :: x in items[1..] ==> x.uri != items[0].uri;
    }
  }

  lemma {:induction false} ExceptDistinct(items: seq<Item>, uri: Uri)
    requires Distinct(items)
    ensures Distinct(Except(items, uri))
  {
    if items != [] {
      ExceptDistinct(items[1..], uri);
      ExceptMembers(items[1..], uri);
      assert forall x :: x in items[1..] ==> x.uri != items[0].uri;
    }
  }

  /** The items whose key is not among the given ones. */
  function Remaining(items: seq<Item>, gone: set<Uri>): seq<Item> {
    if items == [] then []
    else if items[0].uri in gone then Remaining(items[1..], gone)
    else [items[0]] + Remaining(items[1..], gone)
  }

  lemma {:induction false} RemainingOneLess(items: seq<Item>, gone: set<Uri>, uri: Uri)
    ensures Except(Remaining(items, gone), uri) == Remaining(items, gone + {uri})
  {
    if items != [] {
      RemainingOneLess(items[1..], gone, uri);
      var rest := Remaining(items[1..], gone);
      assert ([items[0]] + rest)[1..] == rest;
    }
  }

  lemma {:induction false} RemainingNone(items: seq<Item>)
    ensures Remaining(items, {}) == items
  {
    if items != [] {
      RemainingNone(items[1..]);
    }
  }

  lemma {:induction false} RemainingUnexpired(c: Config, items: seq<Item>, now: int, gone: set<Uri>)
    requires forall x :: x in items ==> (x.uri in gone <==> Expired(c, x.entry, now))
    ensures Remaining(items, gone) == Unexpired(c, items, now)
  {
    if items != [] {
      assert items == [items[0]] + items[1..];
      RemainingUnexpired(c, items[1..], now, gone);
    }
  }

  lemma {:induction false} ExceptAbsent(items: seq<Item>, uri: Uri)
    requires forall x :: x in items ==> x.uri != uri
    ensures Except(items, uri) == items
  {
    if items != [] {
      assert items == [items[0]] + items[1..];
      ExceptAbsent(items[1..], uri);
    }
  }

  lemma ExceptFirst(items: seq<Item>)
    requires Distinct(items) && items != []
    ensures Except(items, items[0].uri) == items[1..]
  {
    ExceptAbsent(items[1..], items[0].uri);
  }

  lemma DropIsNewest(items: seq<Item>, k: nat, n: nat)
    requires k <= |items| && |items| - k <= n && (k > 0 ==> |items| - k >= n)
    ensures items[k..] == Newest(items, n)
  {
  }

  lemma DropOneMore(items: seq<Item>, k: nat)
    requires k < |items|
    ensures items[k..][1..] == items[k + 1..]
  {
  }

  // ------------------------------------------------------------------ the two structures

  /** The recency list that an order list and a map stand for. */
  function Recency(order: seq<Uri>, resources: map<Uri, Entry>): (r: seq<Item>)
    requires forall u :: u in order ==> u in resources
    ensures |r| == |order|
    ensures forall i :: 0 <= i < |r| ==> r[i] == Item(order[i], resources[order[i]])
  {
    if order == [] then [] else [Item(order[0], resources[order[0]])] + Recency(order[1..], resources)
  }

  ghost predicate Agree(order: seq<Uri>, resources: map<Uri, Entry>) {
    NoDuplicates(order) && forall u :: u in order <==> u in resources
  }

  lemma RecencyDistinct(order: seq<Uri>, resources: map<Uri, Entry>)
    requires Agree(order, resources)
    ensures (forall u :: u in order ==> u in resources) && Distinct(Recency(order, resources))
    ensures |order| == |resources|
  {
    ElementsCardinality(order);
    assert Elements(order) == resources.Keys;
  }

  lemma ItemsAreEntries(order: seq<Uri>, resources: map<Uri, Entry>, u: Uri, e: Entry)
    requires Agree(order, resources)
    ensures Item(u, e) in Recency(order, resources) <==> u in resources && resources[u] == e
  {
    if u in resources {
      var i :| 0 <= i < |order| && order[i] == u;
      assert Recency(order, resources)[i].uri == u;
    }
  }

  lemma RecencySame(order: seq<Uri>, a: map<Uri, Entry>, b: map<Uri, Entry>)
    requires forall u :: u in order ==> u in a && u in b && a[u] == b[u]
    ensures Recency(order, a) == Recency(order, b)
  {
  }

  /** Removing a key from both structures removes the item. */
  lemma {:induction false} RecencyWithout(order: seq<Uri>, resources: map<Uri, Entry>, uri: Uri)
    requires forall u :: u in order ==> u in resources
    ensures Recency(Without(order, uri), resources - {uri}) == Except(Recency(order, resources), uri)
  {
    if order != [] {
      RecencyWithout(order[1..], resources, uri);
      assert Recency(order, resources)[1..] == Recency(order[1..], resources);
      if order[0] != uri {
        assert Without(order, uri)[1..] == Without(order[1..], uri);
      }
    }
  }

  lemma {:induction false} RecencyLookup(order: seq<Uri>, resources: map<Uri, Entry>, uri: Uri)
    requires forall u :: u in order ==> u in resources
    ensures Lookup(Recency(order, resources), uri) == if uri in order then Some(resources[uri]) else None
  {
    if order != [] {
      RecencyLookup(order[1..], resources, uri);
      assert Recency(order, resources)[1..] == Recency(order[1..], resources);
    }
  }

  lemma RecencyTouched(order: seq<Uri>, resources: map<Uri, Entry>, uri: Uri, entry: Entry)
    requires Agree(order, resources)
    ensures var order', resources' := Without(order, uri) + [uri], resources[uri := entry];
            && Agree(order', resources')
            && Recency(order', resources') == Except(Recency(order, resources), uri) + [Item(uri, entry)]
  {
    var kept := Without(order, uri);
    WithoutNoDuplicates(order, uri);
    RecencyWithout(order, resources, uri);
    RecencySame(kept, resources - {uri}, resources[uri := entry]);
    RecencySnoc(kept, resources[uri := entry], uri);
  }

  lemma {:induction false} RecencySnoc(order: seq<Uri>, resources: map<Uri, Entry>, uri: Uri)
    requires uri in resources && forall u :: u in order ==> u in resources
    ensures forall u :: u in order + [uri] ==> u in resources
    ensures Recency(order + [uri], resources) == Recency(order, resources) + [Item(uri, resources[uri])]
  {
  }

  lemma FewerEntries(resources: map<Uri, Entry>, uri: Uri)
    ensures |resources - {uri}| <= |resources|
  {
    assert (resources - {uri}).Keys == resources.Keys - {uri};
    assert |resources.Keys - {uri}| <= |resources.Keys|;
  }

  class ResponseResourceManager {
    const config: Config
    var resources: map<Uri, Entry>
    var insertionOrder: seq<Uri>

    /** The two structures hold the same keys, each once, and there is at most maxResources of them. */
    ghost predicate Valid()
      reads this
    {
      && config.maxResources >= 1
      && Agree(insertionOrder, resources)
      && |resources| <= config.maxResources
      && "" !in resources
    }

    ghost function Items(): (r: seq<Item>)
      requires Agree(insertionOrder, resources)
      reads this
    {
      Recency(insertionOrder, resources)
    }

    constructor (config: Config)
      requires config.maxResources >= 1
      ensures Valid() && Items() == [] && this.config == config
    {
      this.config := config;
      resources, insertionOrder := map[], [];
    }

    method RemoveFromInsertionOrder(uri: Uri)
      requires NoDuplicates(insertionOrder)
      modifies this`insertionOrder
      ensures insertionOrder == Without(old(insertionOrder), uri)
    {
      var idx := 0;
      while idx < |insertionOrder| && insertionOrder[idx] != uri
        invariant 0 <= idx <= |insertionOrder|
        invariant uri !in insertionOrder[..idx]
      {
        idx := idx + 1;
      }
      ghost var before, after := insertionOrder[..idx], insertionOrder[idx..];
      assert insertionOrder == before + after;
      WithoutConcat(before, after, uri);
      WithoutAbsent(before, uri);
      if idx < |insertionOrder| {
        assert after == [uri] + after[1..] && uri !in after[1..];
        WithoutAbsent(after[1..], uri);
        insertionOrder := insertionOrder[..idx] + insertionOrder[idx + 1..];
      } else {
        WithoutAbsent(after, uri);
      }
    }

    method TouchInsertionOrder(uri: Uri)
      requires NoDuplicates(insertionOrder)
      modifies this`insertionOrder
      ensures insertionOrder == Without(old(insertionOrder), uri) + [uri]
      ensures NoDuplicates(insertionOrder)
    {
      WithoutNoDuplicates(insertionOrder, uri);
      RemoveFromInsertionOrder(uri);
      assert uri !in insertionOrder;
      insertionOrder := insertionOrder + [uri];
    }

    method DeleteResource(uri: Uri)
      requires Agree(insertionOrder, resources)
      modifies this
      ensures Agree(insertionOrder, resources)
      ensures resources == old(resources) - {uri} && |resources| <= old(|resources|)
      ensures Items() == Except(old(Items()), uri)
    {
      FewerEntries(resources, uri);
      RecencyWithout(insertionOrder, resources, uri);
      WithoutNoDuplicates(insertionOrder, uri);
      resources := resources - {uri};
      RemoveFromInsertionOrder(uri);
    }

    lemma ExpiredAreRemoved(order: seq<Uri>, entries: map<Uri, Entry>, toRemove: seq<Uri>, now: int)
      requires Agree(order, entries)
      requires forall u :: u in toRemove <==> u in entries && Expired(config, entries[u], now)
      ensures Remaining(Recency(order, entries), Elements(toRemove)) == Unexpired(config, Recency(order, entries), now)
    {
      RemainingUnexpired(config, Recency(order, entries), now, Elements(toRemove));
    }

    method EvictExpired(now: int)
      requires Agree(insertionOrder, resources)
      modifies this
      ensures Agree(insertionOrder, resources) && resources.Keys <= old(resources).Keys
      ensures |resources| <= old(|resources|)
      ensures Items() == Unexpired(config, old(Items()), now)
    {
      var toRemove: seq<Uri> := [];
      var unseen := resources.Keys;
      while unseen != {}
        invariant unseen <= resources.Keys
        invariant forall u :: u in toRemove <==> u in resources.Keys - unseen && Expired(config, resources[u], now)
      {
        var uri :| uri in unseen;
        unseen := unseen - {uri};
        if now - resources[uri].createdAt >= config.ttlMs {
          toRemove := toRemove + [uri];
        }
      }
      ExpiredAreRemoved(insertionOrder, resources, toRemove, now);
      RemoveAll(toRemove);
    }

    /** The loop that deletes what was found to be expired. */
    method RemoveAll(toRemove: seq<Uri>)
      requires Agree(insertionOrder, resources)
      modifies this
      ensures Agree(insertionOrder, resources) && resources.Keys <= old(resources).Keys
      ensures |resources| <= old(|resources|)
      ensures Items() == Remaining(old(Items()), Elements(toRemove))
    {
      ghost var items := Items();
      ghost var gone: set<Uri> := {};
      RemainingNone(items);
      for i := 0 to |toRemove|
        invariant Agree(insertionOrder, resources) && resources.Keys <= old(resources).Keys
        invariant |resources| <= old(|resources|)
        invariant gone == Elements(toRemove[..i])
        invariant Items() == Remaining(items, gone)
      {
        RemainingOneLess(items, gone, toRemove[i]);
        DeleteResource(toRemove[i]);
        gone := gone + {toRemove[i]};
        ElementsSnoc(toRemove, i);
      }
      assert toRemove[..|toRemove|] == toRemove;
    }

    method DeleteOldest()
      requires Agree(insertionOrder, resources) && |insertionOrder| > 0
      modifies this
      ensures Agree(insertionOrder, resources) && resources.Keys <= old(resources).Keys
      ensures |resources| == old(|resources|) - 1
      ensures Items() == old(Items())[1..]
    {
      RecencyDistinct(insertionOrder, resources);
      ExceptFirst(Items());
      DeleteResource(insertionOrder[0]);
      RecencyDistinct(insertionOrder, resources);
    }

    /** The eviction loop of store: the least recently used entries go until there is room for one more. */
    method MakeRoom()
      requires Agree(insertionOrder, resources) && "" !in resources && config.maxResources >= 1
      modifies this
      ensures Agree(insertionOrder, resources) && resources.Keys <= old(resources).Keys
      ensures Items() == Newest(old(Items()), config.maxResources - 1)
      ensures |resources| < config.maxResources
    {
      ghost var items, k := Items(), 0;
      RecencyDistinct(insertionOrder, resources);
      while |resources| >= config.maxResources && |insertionOrder| > 0
        invariant Agree(insertionOrder, resources) && resources.Keys <= old(resources).Keys
        invariant |resources| == |insertionOrder|
        invariant 0 <= k <= |items| && Items() == items[k..]
        invariant k > 0 ==> |items| - k >= config.maxResources - 1
        decreases |insertionOrder|
      {
        var oldest := insertionOrder[0];
        assert oldest in resources;
        if oldest == "" {
          break;
        }
        DeleteOldest();
        RecencyDistinct(insertionOrder, resources);
        DropOneMore(items, k);
        k := k + 1;
      }
      DropIsNewest(items, k, config.maxResources - 1);
    }

    method StoreEntry(uri: Uri, entry: Entry, now: int)
      requires Valid() && uri != ""
      modifies this
      ensures Valid() && Items() == Store(config, old(Items()), Item(uri, entry), now)
    {
      EvictExpired(now);
      MakeRoom();
      RecencyTouched(insertionOrder, resources, uri, entry);
      resources := resources[uri := entry];
      TouchInsertionOrder(uri);
    }

    method ReadResource(uri: Uri, now: int) returns (r: Option<Entry>)
      requires Valid()
      modifies this
      ensures Valid() && (Items(), r) == Read(config, old(Items()), uri, now)
    {
      RecencyLookup(insertionOrder, resources, uri);
      if uri !in resources {
        return None;
      }
      var entry := resources[uri];
      if now - entry.createdAt >= config.ttlMs {
        DeleteResource(uri);
        return None;
      }
      Promote(uri);
      return Some(entry);
    }

    method Promote(uri: Uri)
      requires Agree(insertionOrder, resources) && uri in resources
      modifies this`insertionOrder
      ensures Agree(insertionOrder, resources)
      ensures Items() == Except(old(Items()), uri) + [Item(uri, resources[uri])]
    {
      RecencyTouched(insertionOrder, resources, uri, resources[uri]);
      assert resources[uri := resources[uri]] == resources;
      TouchInsertionOrder(uri);
    }

    /** The listing, up to its order. */
    method ListResources(now: int) returns (listed: map<Uri, Entry>)
      requires Valid()
      modifies this
      ensures Valid() && Items() == Unexpired(config, old(Items()), now)
      ensures forall x :: x in Items() <==> x in old(Items()) && now - x.entry.createdAt < config.ttlMs
      ensures forall u, e :: u in listed && listed[u] == e <==> Item(u, e) in Items()
    {
      UnexpiredMembers(config, Items(), now);
      EvictExpired(now);
      listed := resources;
      forall u, e ensures u in listed && listed[u] == e <==> Item(u, e) in Items() {
        ItemsAreEntries(insertionOrder, resources, u, e);
      }
    }

    method GetResourceCount() returns (n: nat)
      requires Valid()
      ensures n == |Items()| <= config.maxResources
    {
      RecencyDistinct(insertionOrder, resources);
      n := |resources|;
    }

    /** The full text is kept under the URI; what travels inline is its preview. */
    method Offload(fullText: Text, uri: Uri, createdAt: int, now: int) returns (preview: Text)
      requires Valid() && uri != ""
      modifies this
      ensures Valid() && Items() == Store(config, old(Items()), Item(uri, Entry(fullText, createdAt)), now)
      ensures preview == Preview(fullText, config.maxInlineLines)
    {
      StoreEntry(uri, Entry(fullText, createdAt), now);
      preview := BuildPreview(fullText, config.maxInlineLines);
    }
  }
}
