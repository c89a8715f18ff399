/** Stable sorting by a string key under an arbitrary strict total order, standing for localeCompare. */
module Sorting {
  import opened Common

  type Order = (string, string) -> bool

  ghost predicate StrictTotal(lt: Order) {
    && (forall a, b :: lt(a, b) ==> !lt(b, a))
    && (forall a, b :: a != b ==> lt(a, b) || lt(b, a))
    && (forall a, b, c :: lt(a, b) && lt(b, c) ==> lt(a, c))
  }

  function Insert<T>(lt: Order, key: T -> string, x: T, xs: seq<T>): seq<T> {
    if xs == [] then [x]
    else if lt(key(xs[0]), key(x)) then [xs[0]] + Insert(lt, key, x, xs[1..])
    else [x] + xs
  }

  /** Array.prototype.sort with a comparison of keys. */
  function SortBy<T>(lt: Order, key: T -> string, xs: seq<T>): seq<T> {
    if xs == [] then [] else Insert(lt, key, xs[0], SortBy(lt, key, xs[1..]))
  }

  lemma {:induction false} InsertContents<T>(lt: Order, key: T -> string, x: T, xs: seq<T>)
    ensures multiset(Insert(lt, key, x, xs)) == multiset{x} + multiset(xs)
  {
    if xs != [] {
      assert xs == [xs[0]] + xs[1..];
      if lt(key(xs[0]), key(x)) {
        InsertContents(lt, key, x, xs[1..]);
      }
    }
  }

  /** Sorting rearranges. */
  lemma {:induction false} SortContents<T>(lt: Order, key: T -> string, xs: seq<T>)
    ensures multiset(SortBy(lt, key, xs)) == multiset(xs)
  {
    if xs != [] {
      assert xs == [xs[0]] + xs[1..];
      SortContents(lt, key, xs[1..]);
      InsertContents(lt, key, xs[0], SortBy(lt, key, xs[1..]));
    }
  }

  /** The head comes before everything else, and so on down the list. */
  ghost predicate Ascending<T>(lt: Order, key: T -> string, xs: seq<T>) {
    forall i, j :: 0 <= i < j < |xs| ==> !lt(key(xs[j]), key(xs[i]))
  }

  lemma NotBefore(lt: Order, a: string, b: string, c: string)
    requires StrictTotal(lt) && !lt(b, a) && !lt(c, b)
    ensures !lt(c, a)
  {
    assert b == c || lt(b, c);
  }

  lemma {:induction false} InsertAscending<T>(lt: Order, key: T -> string, x: T, xs: seq<T>)
    requires StrictTotal(lt) && Ascending(lt, key, xs)
    ensures Ascending(lt, key, Insert(lt, key, x, xs))
  {
    if xs != [] {
      if lt(key(xs[0]), key(x)) {
        InsertAscending(lt, key, x, xs[1..]);
        InsertContents(lt, key, x, xs[1..]);
        var rest := Insert(lt, key, x, xs[1..]);
        forall j | 0 <= j < |rest| ensures !lt(key(rest[j]), key(xs[0])) {
          assert rest[j] in multiset(rest);
          if rest[j] != x {
            assert rest[j] in xs[1..];
          }
        }
      } else {
        forall j | 0 <= j < |xs| ensures !lt(key(xs[j]), key(x)) {
          if j > 0 {
            NotBefore(lt, key(x), key(xs[0]), key(xs[j]));
          }
        }
      }
    }
  }

  lemma {:induction false} SortAscending<T>(lt: Order, key: T -> string, xs: seq<T>)
    requires StrictTotal(lt)
    ensures Ascending(lt, key, SortBy(lt, key, xs))
  {
    if xs != [] {
      SortAscending(lt, key, xs[1..]);
      InsertAscending(lt, key, xs[0], SortBy(lt, key, xs[1..]));
    }
  }

  /** No two elements share a key. */
  ghost predicate DistinctKeys<T>(key: T -> string, xs: seq<T>) {
    forall i, j :: 0 <= i < j < |xs| ==> key(xs[i]) != key(xs[j])
  }

  lemma DistinctKeysApart<T>(key: T -> string, xs: seq<T>, x: T, y: T)
    requires DistinctKeys(key, xs) && x in xs && y in xs && x != y
    ensures key(x) != key(y)
  {
  }

  lemma ConcatDistinct<T>(key: T -> string, a: seq<T>, b: seq<T>)
    requires DistinctKeys(key, a) && DistinctKeys(key, b)
    requires forall x, y :: x in a && y in b ==> key(x) != key(y)
    ensures DistinctKeys(key, a + b)
  {
  }

  lemma SamePosition<T>(key: T -> string, xs: seq<T>, i: int, j: int)
    requires DistinctKeys(key, xs) && 0 <= i < |xs| && 0 <= j < |xs| && key(xs[i]) == key(xs[j])
    ensures i == j
  {
  }

  lemma MultisetMembers<T>(a: seq<T>, b: seq<T>)
    requires multiset(a) == multiset(b)
    ensures forall x :: x in a <==> x in b
  {
    forall x ensures x in a <==> x in b {
      assert x in a <==> x in multiset(a);
      assert x in b <==> x in multiset(b);
    }
  }

  lemma HeadFirst<T>(lt: Order, key: T -> string, a: seq<T>, i: nat)
    requires StrictTotal(lt) && Ascending(lt, key, a) && i < |a|
    ensures !lt(key(a[i]), key(a[0]))
  {
  }

  lemma SameHead<T>(lt: Order, key: T -> string, a: seq<T>, b: seq<T>)
    requires StrictTotal(lt) && multiset(a) == multiset(b) && a != [] && b != []
    requires Ascending(lt, key, a) && Ascending(lt, key, b) && DistinctKeys(key, a)
    ensures a[0] == b[0]
  {
    assert b[0] in multiset(b) && a[0] in multiset(a);
    var i :| 0 <= i < |a| && a[i] == b[0];
    var j :| 0 <= j < |b| && b[j] == a[0];
    HeadFirst(lt, key, a, i);
    HeadFirst(lt, key, b, j);
    assert key(a[0]) == key(a[i]);
  }

  /** Where the head of one list stands in a rearrangement of it, and that the remainders are rearrangements again. */
  lemma HeadInPermutation<T>(a: seq<T>, b: seq<T>) returns (k: nat)
    requires a != [] && multiset(a) == multiset(b)
    ensures k < |b| && b == b[..k] + ([a[0]] + b[k + 1..])
    ensures multiset(a[1..]) == multiset(b[..k] + b[k + 1..])
  {
    assert a[0] in multiset(a);
    assert a[0] in b;
    k :| 0 <= k < |b| && b[k] == a[0];
    TakenOut(a, 0);
    assert a[..0] + a[1..] == a[1..];
    TakenOut(b, k);
  }

  lemma TakenOut<T>(b: seq<T>, k: nat)
    requires k < |b|
    ensures b == b[..k] + ([b[k]] + b[k + 1..])
    ensures multiset(b[..k] + b[k + 1..]) == multiset(b) - multiset{b[k]}
  {
    assert b == b[..k] + ([b[k]] + b[k + 1..]);
    assert multiset(b[..k] + ([b[k]] + b[k + 1..])) == multiset(b[..k]) + multiset{b[k]} + multiset(b[k + 1..]);
  }

  /** Ascending arrangements of the same elements with distinct keys are the same. */
  lemma {:induction false} AscendingUnique<T>(lt: Order, key: T -> string, a: seq<T>, b: seq<T>)
    requires StrictTotal(lt) && multiset(a) == multiset(b)
    requires Ascending(lt, key, a) && Ascending(lt, key, b) && DistinctKeys(key, a)
    ensures a == b
    decreases |a|
  {
    assert |a| == |multiset(a)| == |multiset(b)| == |b|;
    if a != [] {
      assert a == [a[0]] + a[1..] && b == [b[0]] + b[1..];
      SameHead(lt, key, a, b);
      assert multiset(a[1..]) == multiset(a) - multiset{a[0]};
      assert multiset(b[1..]) == multiset(b) - multiset{b[0]};
      AscendingUnique(lt, key, a[1..], b[1..]);
    }
  }

  /** The sorted form depends on the elements only, not on the order they came in. */
  lemma SortCanonical<T>(lt: Order, key: T -> string, a: seq<T>, b: seq<T>)
    requires StrictTotal(lt) && multiset(a) == multiset(b) && DistinctKeys(key, a)
    ensures SortBy(lt, key, a) == SortBy(lt, key, b)
  {
    SortContents(lt, key, a);
    SortContents(lt, key, b);
    SortAscending(lt, key, a);
    SortAscending(lt, key, b);
    PermutedDistinct(key, a, SortBy(lt, key, a));
    AscendingUnique(lt, key, SortBy(lt, key, a), SortBy(lt, key, b));
  }

  /** Distinctness of keys survives rearranging. */
  lemma {:induction false} PermutedDistinct<T>(key: T -> string, a: seq<T>, b: seq<T>)
    requires multiset(a) == multiset(b) && DistinctKeys(key, a)
    ensures DistinctKeys(key, b)
    decreases |b|
  {
    forall i, j | 0 <= i < j < |b| ensures key(b[i]) != key(b[j]) {
      if b[i] == b[j] {
        TwiceInMultiset(b, i, j);
        NoDuplicatesOnce(key, a, b[i]);
      } else {
        assert b[i] in multiset(b) && b[j] in multiset(b);
        assert b[i] in multiset(a) && b[j] in multiset(a);
        DistinctKeysApart(key, a, b[i], b[j]);
      }
    }
  }

  lemma TwiceInMultiset<T>(b: seq<T>, i: nat, j: nat)
    requires i < j < |b| && b[i] == b[j]
    ensures multiset(b)[b[i]] >= 2
  {
    assert b == b[..i] + [b[i]] + b[i + 1..j] + [b[j]] + b[j + 1..];
  }

  lemma {:induction false} NoDuplicatesOnce<T>(key: T -> string, a: seq<T>, x: T)
    requires DistinctKeys(key, a)
    ensures multiset(a)[x] <= 1
  {
    if a != [] {
      assert a == [a[0]] + a[1..];
      NoDuplicatesOnce(key, a[1..], x);
      if a[0] == x && x in a[1..] {
        DistinctHead(key, a, x);
      }
    }
  }

  lemma DistinctHead<T>(key: T -> string, a: seq<T>, x: T)
    requires a != [] && a[0] == x && x in a[1..]
    ensures !DistinctKeys(key, a)
  {
    var i :| 0 <= i < |a[1..]| && a[1..][i] == x;
    assert a[1 + i] == x;
  }
}
