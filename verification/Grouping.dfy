/**
 * Grouping a list by a string key, the way the Maps in src/capabilities/routing.ts are filled and read back in key
 * order.
 */
module Grouping {
  import opened Common
  import opened Sorting

  function Self(s: string): string {
    s
  }

  function Keys<T>(key: T -> string, xs: seq<T>): seq<string> {
    if xs == [] then [] else [key(xs[0])] + Keys(key, xs[1..])
  }

  /** The different strings of a list, in order of first appearance, as the keys of a Map. */
  function Distinct(names: seq<string>): seq<string> {
    if names == [] then []
    else
      var init := Distinct(names[..|names| - 1]);
      if names[|names| - 1] in init then init else init + [names[|names| - 1]]
  }

  /** The keys that occur, sorted. */
  function SortedKeys<T>(lt: Order, key: T -> string, xs: seq<T>): seq<string> {
    SortBy(lt, Self, Distinct(Keys(key, xs)))
  }

  /** The elements with the given key, in order. */
  function Select<T>(key: T -> string, xs: seq<T>, k: string): seq<T> {
    if xs == [] then []
    else if key(xs[0]) == k then [xs[0]] + Select(key, xs[1..], k)
    else Select(key, xs[1..], k)
  }

  lemma {:induction false} KeysMembers<T>(key: T -> string, xs: seq<T>, k: string)
    ensures k in Keys(key, xs) <==> exists i :: 0 <= i < |xs| && key(xs[i]) == k
  {
    if xs != [] {
      KeysMembers(key, xs[1..], k);
      if k in Keys(key, xs[1..]) {
        var i :| 0 <= i < |xs[1..]| && key(xs[1..][i]) == k;
        assert key(xs[i + 1]) == k;
      } else if exists i :: 0 <= i < |xs| && key(xs[i]) == k {
        var i :| 0 <= i < |xs| && key(xs[i]) == k;
        if i > 0 {
          assert key(xs[1..][i - 1]) == k;
        }
      }
    }
  }

  lemma {:induction false} DistinctShape(names: seq<string>)
    ensures DistinctKeys(Self, Distinct(names))
    ensures forall k :: k in Distinct(names) <==> k in names
  {
    if names != [] {
      var init, last := names[..|names| - 1], names[|names| - 1];
      DistinctShape(init);
      assert names == init + [last];
    }
  }

  lemma SortedKeysShape<T>(lt: Order, key: T -> string, xs: seq<T>)
    requires StrictTotal(lt)
    ensures var ks := SortedKeys(lt, key, xs);
            && Ascending(lt, Self, ks) && DistinctKeys(Self, ks)
            && forall k :: k in ks <==> k in Keys(key, xs)
  {
    var names := Distinct(Keys(key, xs));
    DistinctShape(Keys(key, xs));
    SortAscending(lt, Self, names);
    SortContents(lt, Self, names);
    PermutedDistinct(Self, names, SortBy(lt, Self, names));
    MultisetMembers(names, SortBy(lt, Self, names));
  }

  lemma {:induction false} SameMembersSameMultiset(a: seq<string>, b: seq<string>)
    requires DistinctKeys(Self, a) && DistinctKeys(Self, b) && forall k :: k in a <==> k in b
    ensures multiset(a) == multiset(b)
  {
    forall k ensures multiset(a)[k] == multiset(b)[k] {
      NoDuplicatesOnce(Self, a, k);
      NoDuplicatesOnce(Self, b, k);
      assert k in a <==> k in multiset(a);
      assert k in b <==> k in multiset(b);
    }
  }

  /** The sorted keys depend on which keys occur only. */
  lemma SortedKeysCanonical<T>(lt: Order, key: T -> string, a: seq<T>, b: seq<T>)
    requires StrictTotal(lt) && multiset(a) == multiset(b)
    ensures SortedKeys(lt, key, a) == SortedKeys(lt, key, b)
  {
    var ka, kb := Keys(key, a), Keys(key, b);
    MultisetMembers(a, b);
    forall k ensures k in ka <==> k in kb {
      KeysOfSameMembers(key, a, b, k);
      KeysOfSameMembers(key, b, a, k);
    }
    DistinctShape(ka);
    DistinctShape(kb);
    SameMembersSameMultiset(Distinct(ka), Distinct(kb));
    SortCanonical(lt, Self, Distinct(ka), Distinct(kb));
  }

  lemma KeysOfSameMembers<T>(key: T -> string, a: seq<T>, b: seq<T>, k: string)
    requires forall x :: x in a ==> x in b
    ensures k in Keys(key, a) ==> k in Keys(key, b)
  {
    KeysMembers(key, a, k);
    KeysMembers(key, b, k);
    if k in Keys(key, a) {
      var i :| 0 <= i < |a| && key(a[i]) == k;
      assert a[i] in b;
      var j :| 0 <= j < |b| && b[j] == a[i];
      assert key(b[j]) == k;
    }
  }

  lemma {:induction false} SelectCount<T>(key: T -> string, xs: seq<T>, k: string, x: T)
    ensures multiset(Select(key, xs, k))[x] == if key(x) == k then multiset(xs)[x] else 0
  {
    if xs != [] {
      assert xs == [xs[0]] + xs[1..];
      SelectCount(key, xs[1..], k, x);
    }
  }

  lemma SelectMembers<T>(key: T -> string, xs: seq<T>, k: string, x: T)
    ensures x in Select(key, xs, k) <==> x in xs && key(x) == k
  {
    SelectCount(key, xs, k, x);
    assert x in xs <==> x in multiset(xs);
    assert x in Select(key, xs, k) <==> x in multiset(Select(key, xs, k));
  }

  lemma SelectPermuted<T(!new)>(key: T -> string, a: seq<T>, b: seq<T>, k: string)
    requires multiset(a) == multiset(b)
    ensures multiset(Select(key, a, k)) == multiset(Select(key, b, k))
  {
    forall x ensures multiset(Select(key, a, k))[x] == multiset(Select(key, b, k))[x] {
      SelectCount(key, a, k, x);
      SelectCount(key, b, k, x);
    }
  }

  lemma {:induction false} SelectDistinct<T>(key: T -> string, other: T -> string, xs: seq<T>, k: string)
    requires DistinctKeys(other, xs)
    ensures DistinctKeys(other, Select(key, xs, k))
  {
    if xs != [] {
      SelectDistinct<T>(key, other, xs[1..], k);
      var rest := Select(key, xs[1..], k);
      forall j | 0 <= j < |rest| ensures other(xs[0]) != other(rest[j]) {
        SelectMembers(key, xs[1..], k, rest[j]);
        assert rest[j] in xs[1..];
        var i :| 0 <= i < |xs[1..]| && xs[1..][i] == rest[j];
        assert xs[i + 1] == rest[j];
      }
    }
  }

  /** The groups of the given keys, one after the other. */
  function Regrouped<T>(key: T -> string, xs: seq<T>, ks: seq<string>): seq<T> {
    if ks == [] then [] else Select(key, xs, ks[0]) + Regrouped(key, xs, ks[1..])
  }

  lemma {:induction false} RegroupedCount<T>(key: T -> string, xs: seq<T>, ks: seq<string>, x: T)
    requires DistinctKeys(Self, ks)
    ensures multiset(Regrouped(key, xs, ks))[x] == if key(x) in ks then multiset(xs)[x] else 0
  {
    if ks != [] {
      RegroupedCount(key, xs, ks[1..], x);
      SelectCount(key, xs, ks[0], x);
      assert ks == [ks[0]] + ks[1..];
      if key(x) == ks[0] && key(x) in ks[1..] {
        DistinctHead(Self, ks, key(x));
      }
    }
  }

  /** Reading all groups back loses nothing and repeats nothing. */
  lemma RegroupedContents<T(!new)>(lt: Order, key: T -> string, xs: seq<T>)
    requires StrictTotal(lt)
    ensures multiset(Regrouped(key, xs, SortedKeys(lt, key, xs))) == multiset(xs)
  {
    var ks := SortedKeys(lt, key, xs);
    SortedKeysShape(lt, key, xs);
    forall x ensures multiset(Regrouped(key, xs, ks))[x] == multiset(xs)[x] {
      RegroupedCount(key, xs, ks, x);
      KeysMembers(key, xs, key(x));
      if x in multiset(xs) {
        assert x in xs;
        var i :| 0 <= i < |xs| && xs[i] == x;
        assert key(xs[i]) == key(x);
      }
    }
  }
}
