/** How long an offloaded response stays readable, over any run of stores, reads and listings. */
module ResourceRuns {
  import opened Common
  import opened ResourceStore

  datatype Use =
    | Stored(item: Item, now: int)
    | WasRead(uri: Uri, now: int)
    | Listed(now: int)

  function After(c: Config, items: seq<Item>, use: Use): seq<Item>
    requires c.maxResources >= 1
  {
    match use
    case Stored(item, now) => Store(c, items, item, now)
    case WasRead(uri, now) => Read(c, items, uri, now).0
    case Listed(now) => Unexpired(c, items, now)
  }

  function AfterAll(c: Config, items: seq<Item>, uses: seq<Use>): seq<Item>
    requires c.maxResources >= 1
    decreases |uses|
  {
    if uses == [] then items else AfterAll(c, After(c, items, uses[0]), uses[1..])
  }

  ghost predicate Bounded(c: Config, items: seq<Item>) {
    Distinct(items) && |items| <= c.maxResources
  }

  lemma UseKeepsBounds(c: Config, items: seq<Item>, use: Use)
    requires c.maxResources >= 1 && Bounded(c, items)
    ensures Bounded(c, After(c, items, use))
  {
    match use
    case Stored(item, now) => StoreDistinct(c, items, item, now);
    case WasRead(uri, now) =>
      ExceptDistinct(items, uri);
      ExceptMembers(items, uri);
      LookupIsMembership(items, uri);
      if Lookup(items, uri).Some? {
        ExceptShorter(items, uri);
      }
    case Listed(now) =>
      UnexpiredDistinct(c, items, now);
      UnexpiredMembers(c, items, now);
  }

  lemma {:induction false} ExceptShorter(items: seq<Item>, uri: Uri)
    requires Lookup(items, uri).Some?
    ensures |Except(items, uri)| < |items|
  {
    ExceptMembers(items[1..], uri);
    if items[0].uri != uri {
      ExceptShorter(items[1..], uri);
    }
  }

  /** The store never holds two entries for one URI, nor more than maxResources. */
  lemma {:induction false} RunKeepsBounds(c: Config, items: seq<Item>, uses: seq<Use>)
    requires c.maxResources >= 1 && Bounded(c, items)
    ensures Bounded(c, AfterAll(c, items, uses))
    decreases |uses|
  {
    if uses != [] {
      UseKeepsBounds(c, items, uses[0]);
      RunKeepsBounds(c, After(c, items, uses[0]), uses[1..]);
    }
  }

  // ------------------------------------------------------------------ one store

  lemma UnexpiredAround(c: Config, before: seq<Item>, x: Item, after: seq<Item>, now: int)
    ensures Unexpired(c, before + [x] + after, now) ==
            Unexpired(c, before, now) + (if Expired(c, x.entry, now) then [] else [x]) + Unexpired(c, after, now)
  {
    UnexpiredConcat(c, before + [x], after, now);
    UnexpiredConcat(c, before, [x], now);
    assert Unexpired(c, [x], now) == if Expired(c, x.entry, now) then [] else [x] by { assert [x][1..] == []; }
  }

  lemma ExceptAround(before: seq<Item>, x: Item, after: seq<Item>, uri: Uri)
    requires x.uri != uri
    ensures Except(before + [x] + after, uri) == Except(before, uri) + [x] + Except(after, uri)
  {
    ExceptConcat(before + [x], after, uri);
    ExceptConcat(before, [x], uri);
    assert Except([x], uri) == [x] by { assert [x][1..] == []; }
  }

  lemma NewestAround(before: seq<Item>, x: Item, after: seq<Item>, n: nat) returns (kept: seq<Item>)
    requires |after| < n
    ensures Newest(before + [x] + after, n) == kept + [x] + after
  {
    var all := before + [x] + after;
    kept := if |all| <= n then before else before[|all| - n..];
    if |all| > n {
      assert all[|all| - n..] == kept + [x] + after;
    }
  }

  lemma TailMembers(c: Config, after: seq<Item>, item: Item, now: int)
    ensures forall y :: y in Except(Unexpired(c, after, now), item.uri) + [item] ==> y in after || y == item
  {
    UnexpiredMembers(c, after, now);
    ExceptMembers(Unexpired(c, after, now), item.uri);
  }

  lemma NewestTail(before: seq<Item>, x: Item, after: seq<Item>, n: nat, y: Item)
    requires n <= |after| && y in Newest(before + [x] + after, n)
    ensures y in after
  {
    var all := before + [x] + after;
    var newest := Newest(all, n);
    var i :| 0 <= i < |newest| && newest[i] == y;
    assert newest[i] == all[|all| - n + i] == after[|after| - n + i];
  }

  lemma NewestSubset(items: seq<Item>, n: nat, y: Item)
    requires y in Newest(items, n)
    ensures y in items
  {
  }

  lemma StoreShape(c: Config, items: seq<Item>, kept: seq<Item>, x: Item, aft: seq<Item>, item: Item, now: int)
    requires c.maxResources >= 1 && item.uri != x.uri
    requires Newest(Unexpired(c, items, now), c.maxResources - 1) == kept + [x] + aft
    ensures Store(c, items, item, now) == Except(kept, item.uri) + [x] + (Except(aft, item.uri) + [item])
  {
    ExceptAround(kept, x, aft, item.uri);
    AppendAssociates(Except(kept, item.uri) + [x], Except(aft, item.uri), [item]);
  }

  /** A store leaves an unexpired item in place when there is room for everything more recent and for the new item. */
  lemma StoreKeepsItem(c: Config, before: seq<Item>, x: Item, after: seq<Item>, item: Item, now: int)
    returns (before': seq<Item>, after': seq<Item>)
    requires c.maxResources >= 1 && item.uri != x.uri && !Expired(c, x.entry, now)
    requires |Unexpired(c, after, now)| + 2 <= c.maxResources
    ensures Store(c, before + [x] + after, item, now) == before' + [x] + after'
    ensures forall y :: y in after' ==> y in after || y == item
  {
    var fore, aft := Unexpired(c, before, now), Unexpired(c, after, now);
    UnexpiredAround(c, before, x, after, now);
    var kept := NewestAround(fore, x, aft, c.maxResources - 1);
    StoreShape(c, before + [x] + after, kept, x, aft, item, now);
    before', after' := Except(kept, item.uri), Except(aft, item.uri) + [item];
    TailMembers(c, after, item, now);
  }

  /** Everything the eviction keeps is more recent than an item that has expired or has too much after it. */
  lemma NewestIsLater(c: Config, before: seq<Item>, x: Item, after: seq<Item>, now: int, y: Item)
    requires c.maxResources >= 1 && Distinct(before + [x] + after)
    requires Expired(c, x.entry, now) || |Unexpired(c, after, now)| + 2 > c.maxResources
    requires y in Newest(Unexpired(c, before + [x] + after, now), c.maxResources - 1)
    ensures y.uri != x.uri
  {
    var items := before + [x] + after;
    var aft := Unexpired(c, after, now);
    NewestSubset(Unexpired(c, items, now), c.maxResources - 1, y);
    UnexpiredMembers(c, items, now);
    UnexpiredMembers(c, after, now);
    if Expired(c, x.entry, now) {
      assert x in items && y in items;
      SameUriSameItem(items, x, y);
    } else {
      UnexpiredAround(c, before, x, after, now);
      NewestTail(Unexpired(c, before, now), x, aft, c.maxResources - 1, y);
      ApartFromTail(before, x, after, y);
    }
  }

  /** Storing something else evicts an item exactly when it has expired or too much that is unexpired is more recent. */
  lemma StoreEvictsExactly(c: Config, before: seq<Item>, x: Item, after: seq<Item>, item: Item, now: int)
    requires c.maxResources >= 1 && Distinct(before + [x] + after) && item.uri != x.uri
    ensures Lookup(Store(c, before + [x] + after, item, now), x.uri) ==
            if now - x.entry.createdAt < c.ttlMs && |Unexpired(c, after, now)| + 2 <= c.maxResources
            then Some(x.entry) else None
  {
    var items := before + [x] + after;
    var stored := Store(c, items, item, now);
    if !Expired(c, x.entry, now) && |Unexpired(c, after, now)| + 2 <= c.maxResources {
      StoreDistinct(c, items, item, now);
      var before', after' := StoreKeepsItem(c, before, x, after, item, now);
      assert stored[|before'|] == x;
      LookupOfDistinct(stored, x);
    } else {
      LookupIsMembership(stored, x.uri);
      ExceptMembers(Newest(Unexpired(c, items, now), c.maxResources - 1), item.uri);
      forall y | y in stored ensures y.uri != x.uri {
        if y != item {
          NewestIsLater(c, before, x, after, now, y);
        }
      }
    }
  }

  lemma StoreDistinct(c: Config, items: seq<Item>, item: Item, now: int)
    requires c.maxResources >= 1 && Distinct(items)
    ensures Distinct(Store(c, items, item, now)) && |Store(c, items, item, now)| <= c.maxResources
  {
    var newest := Newest(Unexpired(c, items, now), c.maxResources - 1);
    UnexpiredDistinct(c, items, now);
    ExceptDistinct(newest, item.uri);
    ExceptMembers(newest, item.uri);
  }

  lemma SameUriSameItem(items: seq<Item>, x: Item, y: Item)
    requires Distinct(items) && x in items && y in items && x != y
    ensures x.uri != y.uri
  {
  }

  lemma ApartFromTail(before: seq<Item>, x: Item, after: seq<Item>, y: Item)
    requires Distinct(before + [x] + after) && y in after
    ensures y.uri != x.uri
  {
    var items := before + [x] + after;
    var i :| 0 <= i < |after| && after[i] == y;
    assert items[|before|] == x && items[|before| + 1 + i] == y;
  }

  // ------------------------------------------------------------------ runs

  /** The URI that is stored or read, unless it is u itself. */
  function Mentioned(use: Use, u: Uri): set<Uri> {
    match use
    case Stored(item, _) => {item.uri} - {u}
    case WasRead(uri, _) => {uri} - {u}
    case Listed(_) => {}
  }

  function Others(uses: seq<Use>, u: Uri): set<Uri> {
    if uses == [] then {} else Mentioned(uses[0], u) + Others(uses[1..], u)
  }

  /** Every stored URI is new at the moment it is stored. */
  ghost predicate NewUris(c: Config, items: seq<Item>, uses: seq<Use>)
    requires c.maxResources >= 1
    decreases |uses|
  {
    uses == [] ||
    ((uses[0].Stored? ==> Lookup(items, uses[0].item.uri) == None) && NewUris(c, After(c, items, uses[0]), uses[1..]))
  }

  ghost predicate NotAfter(uses: seq<Use>, now: int) {
    forall i :: 0 <= i < |uses| ==> uses[i].now <= now
  }

  ghost predicate NeverStores(uses: seq<Use>, u: Uri) {
    forall i :: 0 <= i < |uses| ==> !(uses[i].Stored? && uses[i].item.uri == u)
  }

  /** Distinct items whose URIs lie in a set are no more than that set has elements. */
  lemma {:induction false} FewerThanUris(items: seq<Item>, used: set<Uri>)
    requires Distinct(items) && forall x :: x in items ==> x.uri in used
    ensures |items| <= |used|
  {
    if items != [] {
      FewerThanUris(items[1..], used - {items[0].uri});
    }
  }

  /** x sits in the list and whatever is more recent is among the given URIs. */
  ghost predicate Within(items: seq<Item>, x: Item, used: set<Uri>) {
    exists k :: 0 <= k < |items| && items[k] == x && forall j :: k < j < |items| ==> items[j].uri in used
  }

  /** Few URIs after x, the stored one included, leave room for it and for the new item. */
  lemma AfterIsSmall(c: Config, before: seq<Item>, x: Item, after: seq<Item>, used: set<Uri>, uri: Uri, now: int)
    requires Distinct(before + [x] + after) && forall y :: y in after ==> y.uri in used
    requires |used + {uri}| + (if forall y :: y in after ==> y.uri != uri then 0 else 1) < c.maxResources
    ensures |Unexpired(c, after, now)| + 2 <= c.maxResources
  {
    var used' := used + {uri};
    TailDistinct(before, x, after);
    UnexpiredMembers(c, after, now);
    if forall y :: y in after ==> y.uri != uri {
      FewerThanUris(after, used - {uri});
      SmallerWithout(used', used, uri);
    } else {
      FewerThanUris(after, used);
      SubsetSize(used, used');
    }
  }

  lemma StoreKeepsWithin(c: Config, before: seq<Item>, x: Item, after: seq<Item>, used: set<Uri>, item: Item, now: int)
    requires c.maxResources >= 1 && Distinct(before + [x] + after) && !Expired(c, x.entry, now) && item.uri != x.uri
    requires forall y :: y in after ==> y.uri in used
    requires |used + {item.uri}| + (if forall y :: y in after ==> y.uri != item.uri then 0 else 1) < c.maxResources
    ensures Within(Store(c, before + [x] + after, item, now), x, used + {item.uri})
  {
    AfterIsSmall(c, before, x, after, used, item.uri, now);
    var before', after' := StoreKeepsItem(c, before, x, after, item, now);
    PlacedWithin(before', x, after', used + {item.uri});
  }

  lemma TailDistinct(before: seq<Item>, x: Item, after: seq<Item>)
    requires Distinct(before + [x] + after)
    ensures Distinct(after)
  {
    var items := before + [x] + after;
    forall i, j | 0 <= i < j < |after| ensures after[i].uri != after[j].uri {
      assert items[|before| + 1 + i] == after[i] && items[|before| + 1 + j] == after[j];
    }
  }

  lemma UseKeepsWithin(c: Config, items: seq<Item>, x: Item, used: set<Uri>, use: Use)
    requires c.maxResources >= 1 && Bounded(c, items) && Within(items, x, used) && x.uri !in used
    requires !Expired(c, x.entry, use.now)
    requires use.Stored? ==> use.item.uri != x.uri
    requires |used + Mentioned(use, x.uri)| + (if use.Stored? && Lookup(items, use.item.uri).Some? then 1 else 0)
             < c.maxResources
    ensures Within(After(c, items, use), x, used + Mentioned(use, x.uri))
  {
    var before, after := SplitWithin(items, x, used);
    match use
    case Stored(item, now) =>
      LookupIsMembership(items, item.uri);
      assert forall y :: y in after ==> y in items;
      assert Mentioned(use, x.uri) == {item.uri};
      StoreKeepsWithin(c, before, x, after, used, item, now);
    case WasRead(uri, now) => ReadKeepsWithin(c, before, x, after, used, uri, now);
    case Listed(now) => ListKeepsWithin(c, before, x, after, used, now);
  }

  lemma SplitWithin(items: seq<Item>, x: Item, used: set<Uri>) returns (before: seq<Item>, after: seq<Item>)
    requires Within(items, x, used)
    ensures items == before + [x] + after && forall y :: y in after ==> y.uri in used
  {
    var k :| 0 <= k < |items| && items[k] == x && forall j :: k < j < |items| ==> items[j].uri in used;
    before, after := items[..k], items[k + 1..];
  }

  lemma ListKeepsWithin(c: Config, before: seq<Item>, x: Item, after: seq<Item>, used: set<Uri>, now: int)
    requires !Expired(c, x.entry, now) && forall y :: y in after ==> y.uri in used
    ensures Within(Unexpired(c, before + [x] + after, now), x, used)
  {
    UnexpiredAround(c, before, x, after, now);
    UnexpiredMembers(c, after, now);
    PlacedWithin(Unexpired(c, before, now), x, Unexpired(c, after, now), used);
  }

  lemma PlacedWithin(before: seq<Item>, x: Item, after: seq<Item>, used: set<Uri>)
    requires forall y :: y in after ==> y.uri in used
    ensures Within(before + [x] + after, x, used)
  {
    var items := before + [x] + after;
    assert items[|before|] == x;
    forall j | |before| < j < |items| ensures items[j].uri in used {
      assert items[j] in after;
    }
  }

  lemma ReadKeepsWithin(c: Config, before: seq<Item>, x: Item, after: seq<Item>, used: set<Uri>, uri: Uri, now: int)
    requires Distinct(before + [x] + after) && !Expired(c, x.entry, now)
    requires forall y :: y in after ==> y.uri in used
    ensures Within(Read(c, before + [x] + after, uri, now).0, x, used + ({uri} - {x.uri}))
  {
    var items := before + [x] + after;
    var used' := used + ({uri} - {x.uri});
    match Lookup(items, uri)
    case None => PlacedWithin(before, x, after, used');
    case Some(e) =>
      if uri == x.uri {
        assert x in items;
        LookupOfDistinct(items, x);
        PlacedWithin(Except(items, uri), x, [], used');
        assert Except(items, uri) + [x] + [] == Except(items, uri) + [x];
      } else {
        ExceptAround(before, x, after, uri);
        ExceptMembers(after, uri);
        var tail := if Expired(c, e, now) then Except(after, uri) else Except(after, uri) + [Item(uri, e)];
        assert Read(c, items, uri, now).0 == Except(before, uri) + [x] + tail;
        PlacedWithin(Except(before, uri), x, tail, used');
      }
  }

  lemma SmallerWithout(whole: set<Uri>, part: set<Uri>, u: Uri)
    requires part <= whole && u in whole
    ensures |part - {u}| < |whole|
  {
    SubsetSize(part - {u}, whole - {u});
  }

  // ------------------------------------------------------------------ exactly when a response stays readable

  /** A store at this moment finds x with too many more recent unexpired items after it. */
  ghost predicate Squeezes(c: Config, items: seq<Item>, x: Item, now: int) {
    exists k :: 0 <= k < |items| && items[k] == x && |Unexpired(c, items[k + 1..], now)| + 2 > c.maxResources
  }

  /** Some store of the run does. */
  ghost predicate Squeezed(c: Config, items: seq<Item>, x: Item, uses: seq<Use>)
    requires c.maxResources >= 1
    decreases |uses|
  {
    uses != [] &&
    ((uses[0].Stored? && Squeezes(c, items, x, uses[0].now)) || Squeezed(c, After(c, items, uses[0]), x, uses[1..]))
  }

  lemma SqueezesAt(c: Config, before: seq<Item>, x: Item, after: seq<Item>, now: int)
    requires Distinct(before + [x] + after)
    ensures Squeezes(c, before + [x] + after, x, now) <==> |Unexpired(c, after, now)| + 2 > c.maxResources
  {
    var items := before + [x] + after;
    assert items[|before|] == x && items[|before| + 1..] == after;
    assert forall k :: 0 <= k < |items| && items[k] == x ==> k == |before|;
  }

  lemma StoreSqueezes(c: Config, items: seq<Item>, x: Item, item: Item, now: int)
    requires c.maxResources >= 1 && Distinct(items) && x in items && !Expired(c, x.entry, now) && item.uri != x.uri
    ensures Lookup(Store(c, items, item, now), x.uri) == if Squeezes(c, items, x, now) then None else Some(x.entry)
  {
    var k :| 0 <= k < |items| && items[k] == x;
    var before, after := items[..k], items[k + 1..];
    assert items == before + [x] + after;
    SqueezesAt(c, before, x, after, now);
    StoreEvictsExactly(c, before, x, after, item, now);
  }

  /** A read or a listing drops nothing that has not expired. */
  lemma ReadsKeep(c: Config, items: seq<Item>, x: Item, use: Use)
    requires c.maxResources >= 1 && Distinct(items) && x in items && !Expired(c, x.entry, use.now) && !use.Stored?
    ensures x in After(c, items, use)
  {
    match use
    case WasRead(uri, now) =>
      LookupOfDistinct(items, x);
      ExceptMembers(items, uri);
    case Listed(now) => UnexpiredMembers(c, items, now);
  }

  /** Whatever is in the list after a use was there before, under the same URI, or has just been stored. */
  lemma AfterMembers(c: Config, items: seq<Item>, use: Use, y: Item)
    requires c.maxResources >= 1 && y in After(c, items, use) && !(use.Stored? && y == use.item)
    ensures y in items
  {
    match use
    case Stored(item, now) =>
      var newest := Newest(Unexpired(c, items, now), c.maxResources - 1);
      ExceptMembers(newest, item.uri);
      NewestSubset(Unexpired(c, items, now), c.maxResources - 1, y);
      UnexpiredMembers(c, items, now);
    case WasRead(uri, now) =>
      LookupIsMembership(items, uri);
      ExceptMembers(items, uri);
    case Listed(now) => UnexpiredMembers(c, items, now);
  }

  /** Nothing but storing under a URI makes it readable again. */
  lemma GoneAfterUse(c: Config, items: seq<Item>, uri: Uri, use: Use)
    requires c.maxResources >= 1 && Lookup(items, uri) == None && !(use.Stored? && use.item.uri == uri)
    ensures Lookup(After(c, items, use), uri) == None
  {
    var rest := After(c, items, use);
    LookupIsMembership(items, uri);
    LookupIsMembership(rest, uri);
    forall y | y in rest ensures y.uri != uri {
      if !(use.Stored? && y == use.item) {
        AfterMembers(c, items, use, y);
      }
    }
  }

  lemma {:induction false} GoneStaysGone(c: Config, items: seq<Item>, uri: Uri, uses: seq<Use>)
    requires c.maxResources >= 1 && Lookup(items, uri) == None && NeverStores(uses, uri)
    ensures Lookup(AfterAll(c, items, uses), uri) == None
    decreases |uses|
  {
    if uses != [] {
      GoneAfterUse(c, items, uri, uses[0]);
      GoneStaysGone(c, After(c, items, uses[0]), uri, uses[1..]);
    }
  }

  /** Until it expires or is stored again, a response is found exactly as long as no store squeezes it out. */
  lemma {:induction false} FoundExactly(c: Config, items: seq<Item>, x: Item, uses: seq<Use>, now: int)
    requires c.maxResources >= 1 && Bounded(c, items) && x in items
    requires NotAfter(uses, now) && !Expired(c, x.entry, now) && NeverStores(uses, x.uri)
    ensures Lookup(AfterAll(c, items, uses), x.uri) == if Squeezed(c, items, x, uses) then None else Some(x.entry)
    decreases |uses|
  {
    if uses == [] {
      LookupOfDistinct(items, x);
    } else {
      var use, rest := uses[0], After(c, items, uses[0]);
      UseKeepsBounds(c, items, use);
      if use.Stored? {
        StoreSqueezes(c, items, x, use.item, use.now);
        LookupIsMembership(rest, x.uri);
      } else {
        ReadsKeep(c, items, x, use);
      }
      if use.Stored? && Squeezes(c, items, x, use.now) {
        GoneStaysGone(c, rest, x.uri, uses[1..]);
      } else {
        FoundExactly(c, rest, x, uses[1..], now);
      }
    }
  }

  /** A response can be read exactly as long as no store finds too many more recent unexpired ones. */
  lemma StaysReadableExactly(c: Config, items: seq<Item>, x: Item, uses: seq<Use>, now: int)
    requires c.maxResources >= 1 && Bounded(c, items) && x in items
    requires NotAfter(uses, now) && now - x.entry.createdAt < c.ttlMs && NeverStores(uses, x.uri)
    ensures Read(c, AfterAll(c, items, uses), x.uri, now).1 == Some(x.entry) <==> !Squeezed(c, items, x, uses)
  {
    FoundExactly(c, items, x, uses, now);
  }

  /** With few other URIs no store squeezes x out; a store that reuses a held URI counts for one more. */
  lemma {:induction false} FewOthersLeaveRoom(
      c: Config, items: seq<Item>, x: Item, used: set<Uri>, uses: seq<Use>, now: int)
    requires c.maxResources >= 1 && Bounded(c, items) && Within(items, x, used) && x.uri !in used
    requires NotAfter(uses, now) && !Expired(c, x.entry, now) && NeverStores(uses, x.uri)
    requires |used + Others(uses, x.uri)| + (if NewUris(c, items, uses) then 0 else 1) < c.maxResources
    ensures !Squeezed(c, items, x, uses)
    decreases |uses|
  {
    if uses != [] {
      var use := uses[0];
      var used' := used + Mentioned(use, x.uri);
      assert used + Others(uses, x.uri) == used' + Others(uses[1..], x.uri);
      SubsetSize(used', used + Others(uses, x.uri));
      UseLeavesRoom(c, items, x, used, use);
      FewOthersLeaveRoom(c, After(c, items, use), x, used', uses[1..], now);
    }
  }

  /** One use with few other URIs so far: it does not squeeze x out, and what is more recent stays among them. */
  lemma UseLeavesRoom(c: Config, items: seq<Item>, x: Item, used: set<Uri>, use: Use)
    requires c.maxResources >= 1 && Bounded(c, items) && Within(items, x, used) && x.uri !in used
    requires !Expired(c, x.entry, use.now) && (use.Stored? ==> use.item.uri != x.uri)
    requires |used + Mentioned(use, x.uri)| + (if use.Stored? && Lookup(items, use.item.uri).Some? then 1 else 0)
             < c.maxResources
    ensures !(use.Stored? && Squeezes(c, items, x, use.now))
    ensures Bounded(c, After(c, items, use)) && Within(After(c, items, use), x, used + Mentioned(use, x.uri))
  {
    UseKeepsBounds(c, items, use);
    UseKeepsWithin(c, items, x, used, use);
    if use.Stored? {
      assert Mentioned(use, x.uri) == {use.item.uri};
      StoreLeavesRoom(c, items, x, used, use.item.uri, use.now);
    }
  }

  lemma StoreLeavesRoom(c: Config, items: seq<Item>, x: Item, used: set<Uri>, uri: Uri, now: int)
    requires Distinct(items) && Within(items, x, used)
    requires |used + {uri}| + (if Lookup(items, uri).Some? then 1 else 0) < c.maxResources
    ensures !Squeezes(c, items, x, now)
  {
    var before, after := SplitWithin(items, x, used);
    LookupIsMembership(items, uri);
    assert forall y :: y in after ==> y in items;
    AfterIsSmall(c, before, x, after, used, uri, now);
    SqueezesAt(c, before, x, after, now);
  }

  /**
   * A response that has just been used stays readable until it expires while fewer than maxResources distinct other
   * URIs are stored or read; if some store reuses a URI that is still held, one fewer.
   */
  lemma StaysReadable(c: Config, before: seq<Item>, x: Item, uses: seq<Use>, now: int)
    requires c.maxResources >= 1 && Bounded(c, before + [x])
    requires NotAfter(uses, now) && now - x.entry.createdAt < c.ttlMs && NeverStores(uses, x.uri)
    requires |Others(uses, x.uri)| + (if NewUris(c, before + [x], uses) then 0 else 1) < c.maxResources
    ensures Read(c, AfterAll(c, before + [x], uses), x.uri, now).1 == Some(x.entry)
  {
    assert before + [x] + [] == before + [x];
    PlacedWithin(before, x, [], {});
    assert {} + Others(uses, x.uri) == Others(uses, x.uri);
    FewOthersLeaveRoom(c, before + [x], x, {}, uses, now);
    StaysReadableExactly(c, before + [x], x, uses, now);
  }

  // ------------------------------------------------------------------ storing under a URI that is held

  lemma {:induction false} ExceptOneLess(items: seq<Item>, uri: Uri)
    requires Distinct(items) && Lookup(items, uri).Some?
    ensures |Except(items, uri)| == |items| - 1
  {
    if items[0].uri == uri {
      LookupIsMembership(items[1..], uri);
      ExceptAbsent(items[1..], uri);
    } else {
      ExceptOneLess(items[1..], uri);
    }
  }

  /** Evicting before or after dropping the old entry comes to the same unless the old entry is among the newest. */
  lemma NewestExcept(items: seq<Item>, n: nat, uri: Uri)
    requires Distinct(items)
    ensures Except(Newest(items, n), uri) == Newest(Except(items, uri), n)
            <==> |items| <= n || Lookup(Newest(items, n), uri) == None
  {
    ExceptMembers(items, uri);
    if |items| > n {
      var early, late := items[..|items| - n], items[|items| - n..];
      assert items == early + late;
      ExceptConcat(early, late, uri);
      if Lookup(late, uri) == None {
        LookupIsMembership(late, uri);
        ExceptAbsent(late, uri);
        assert Newest(Except(early, uri) + late, n) == late;
      } else {
        HeldSomewhere(early, late, uri);
        ExceptOneLess(late, uri);
        ExceptOneLess(items, uri);
      }
    }
  }

  lemma HeldSomewhere(early: seq<Item>, late: seq<Item>, uri: Uri)
    requires Lookup(late, uri).Some?
    ensures Lookup(early + late, uri).Some?
  {
    LookupIsMembership(late, uri);
    LookupIsMembership(early + late, uri);
  }

  /**
   * A store keeps the most recent unexpired entries that there is room for exactly when there is room for all, or the
   * URI is not among those it keeps; otherwise it evicts one more.
   */
  lemma StoreKeepsNewestExactly(c: Config, items: seq<Item>, item: Item, now: int)
    requires c.maxResources >= 1 && Distinct(items)
    ensures var unexpired, room := Unexpired(c, items, now), c.maxResources - 1;
            Store(c, items, item, now) == Newest(Except(unexpired, item.uri), room) + [item]
            <==> |unexpired| < c.maxResources || Lookup(Newest(unexpired, room), item.uri) == None
  {
    var unexpired, room := Unexpired(c, items, now), c.maxResources - 1;
    UnexpiredDistinct(c, items, now);
    NewestExcept(unexpired, room, item.uri);
    SameFront(Except(Newest(unexpired, room), item.uri), Newest(Except(unexpired, item.uri), room), item);
  }

  lemma SameFront(a: seq<Item>, b: seq<Item>, x: Item)
    ensures a + [x] == b + [x] <==> a == b
  {
    if a + [x] == b + [x] {
      assert a == (a + [x])[..|a|] == (b + [x])[..|b|] == b;
    }
  }

  /** Storing under a URI that is still held evicts one entry too many: with two places, one other URI is enough. */
  lemma ReusedUriEvictsEarly(c: Config, u: Uri, v: Uri, e: Entry, f: Entry, g: Entry, now: int)
    requires c.maxResources == 2 && u != v
    requires now - e.createdAt < c.ttlMs && now - f.createdAt < c.ttlMs
    ensures Mentioned(Stored(Item(v, g), now), u) == {v}
    ensures Read(c, After(c, [Item(u, e), Item(v, f)], Stored(Item(v, g), now)), u, now).1 == None
  {
    var items := [] + [Item(u, e)] + [Item(v, f)];
    assert items == [Item(u, e), Item(v, f)];
    assert [Item(v, f)][1..] == [];
    assert Unexpired(c, [Item(v, f)], now) == [Item(v, f)];
    StoreEvictsExactly(c, [], Item(u, e), [Item(v, f)], Item(v, g), now);
    var stored := Store(c, items, Item(v, g), now);
    UnexpiredAround(c, [], Item(u, e), [Item(v, f)], now);
    assert Unexpired(c, [], now) == [];
    assert Newest([Item(u, e), Item(v, f)], 1) == [Item(v, f)];
    assert Except([Item(v, f)], v) == [];
    assert stored == [Item(v, g)];
  }

  /** What has just been stored can be read back exactly until it is as old as the time to live. */
  lemma StoredIsReadable(c: Config, items: seq<Item>, item: Item, stored: int, now: int)
    requires c.maxResources >= 1 && Bounded(c, items)
    ensures Read(c, Store(c, items, item, stored), item.uri, now).1 ==
            if now - item.entry.createdAt < c.ttlMs then Some(item.entry) else None
  {
    UseKeepsBounds(c, items, Stored(item, stored));
    LookupOfDistinct(Store(c, items, item, stored), item);
  }
}
