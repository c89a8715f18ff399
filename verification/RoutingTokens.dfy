/**
 * Instance tokens, found by grouping the instance keys of a collision group by token
 * (src/capabilities/routing.ts:94-120).
 */
module RoutingTokens {
  import opened Common
  import opened Sorting
  import opened Grouping
  import opened Tokens
  import opened ActionIds
  import opened Routing
  import opened GroupNames

  /** The instance keys with the given token, in order. */
  function Holders(loc: Locale, ks: seq<string>, token: string): seq<string> {
    if ks == [] then []
    else Holders(loc, ks[..|ks| - 1], token) + (if TokenOf(loc, ks[|ks| - 1]) == token then [ks[|ks| - 1]] else [])
  }

  lemma {:induction false} HoldersMembers(loc: Locale, ks: seq<string>, token: string, k: string)
    ensures k in Holders(loc, ks, token) <==> k in ks && TokenOf(loc, k) == token
  {
    if ks != [] {
      assert ks == ks[..|ks| - 1] + [ks[|ks| - 1]];
      HoldersMembers(loc, ks[..|ks| - 1], token, k);
    }
  }

  lemma {:induction false} HoldersSorted(loc: Locale, ks: seq<string>, token: string)
    requires Ascending(loc.lt, Self, ks) && DistinctKeys(Self, ks)
    ensures Ascending(loc.lt, Self, Holders(loc, ks, token)) && DistinctKeys(Self, Holders(loc, ks, token))
  {
    if ks != [] {
      var init, last := ks[..|ks| - 1], ks[|ks| - 1];
      HoldersSorted(loc, init, token);
      var held := Holders(loc, init, token);
      forall i | 0 <= i < |held| ensures !loc.lt(last, held[i]) && held[i] != last {
        HoldersMembers(loc, init, token, held[i]);
        var j :| 0 <= j < |init| && init[j] == held[i];
        assert Self(ks[j]) != Self(ks[|ks| - 1]) && !loc.lt(Self(ks[|ks| - 1]), Self(ks[j]));
      }
      assert last == Self(last) && forall i :: 0 <= i < |held| ==> Self(held[i]) == held[i];
    }
  }

  /** The rank of an instance key is its position among the holders of its token. */
  lemma {:induction false} HolderAt(loc: Locale, ks: seq<string>, i: nat)
    requires i < |ks|
    ensures var held := Holders(loc, ks, TokenOf(loc, ks[i]));
            Rank(loc, ks, i) < |held| && held[Rank(loc, ks, i)] == ks[i]
  {
    var init, token := ks[..|ks| - 1], TokenOf(loc, ks[i]);
    if i < |ks| - 1 {
      HolderAt(loc, init, i);
      assert init[..i] == ks[..i];
    } else {
      HoldersCount(loc, init, token);
      assert ks[..i] == init;
    }
  }

  lemma {:induction false} HoldersCount(loc: Locale, ks: seq<string>, token: string)
    ensures |Holders(loc, ks, token)| == CountToken(loc, ks, token)
  {
    if ks != [] {
      HoldersCount(loc, ks[..|ks| - 1], token);
    }
  }

  /** The holders among the sorted instance keys of some records. */
  function HoldersIn(loc: Locale, records: seq<Route>, token: string): seq<string> {
    Holders(loc, SortedKeys(loc.lt, InstanceOf, records), token)
  }

  lemma HoldersInMembers(loc: Locale, records: seq<Route>, token: string, k: string)
    requires StrictTotal(loc.lt)
    ensures k in HoldersIn(loc, records, token)
            <==> (exists r :: r in records && r.instanceKey == k) && TokenOf(loc, k) == token
  {
    var ks := SortedKeys(loc.lt, InstanceOf, records);
    SortedKeysShape(loc.lt, InstanceOf, records);
    HoldersMembers(loc, ks, token, k);
    KeysMembers(InstanceOf, records, k);
    if r :| r in records && r.instanceKey == k {
      var i :| 0 <= i < |records| && records[i] == r;
      assert InstanceOf(records[i]) == k;
    }
  }

  lemma HoldersInSorted(loc: Locale, records: seq<Route>, token: string)
    requires StrictTotal(loc.lt)
    ensures Ascending(loc.lt, Self, HoldersIn(loc, records, token))
            && DistinctKeys(Self, HoldersIn(loc, records, token))
  {
    SortedKeysShape(loc.lt, InstanceOf, records);
    HoldersSorted(loc, SortedKeys(loc.lt, InstanceOf, records), token);
  }

  lemma SameHolders(loc: Locale, a: seq<string>, b: seq<string>)
    requires StrictTotal(loc.lt)
    requires Ascending(loc.lt, Self, a) && DistinctKeys(Self, a) && Ascending(loc.lt, Self, b) && DistinctKeys(Self, b)
    requires forall k :: k in a <==> k in b
    ensures a == b
  {
    SameMembersSameMultiset(a, b);
    AscendingUnique(loc.lt, Self, a, b);
  }

  /** A record of a known instance, or with another token, changes nothing. */
  lemma HoldersKept(loc: Locale, records: seq<Route>, r: Route, token: string)
    requires StrictTotal(loc.lt)
    requires TokenOf(loc, r.instanceKey) != token || r.instanceKey in HoldersIn(loc, records, token)
    ensures HoldersIn(loc, records + [r], token) == HoldersIn(loc, records, token)
  {
    forall k ensures k in HoldersIn(loc, records + [r], token) <==> k in HoldersIn(loc, records, token) {
      HoldersInMembers(loc, records, token, k);
      HoldersInMembers(loc, records + [r], token, k);
      HoldersInMembers(loc, records, token, r.instanceKey);
    }
    HoldersInSorted(loc, records, token);
    HoldersInSorted(loc, records + [r], token);
    SameHolders(loc, HoldersIn(loc, records + [r], token), HoldersIn(loc, records, token));
  }

  /** Pushing a new instance key and sorting. */
  lemma HoldersGrow(loc: Locale, records: seq<Route>, r: Route)
    requires StrictTotal(loc.lt) && r.instanceKey !in HoldersIn(loc, records, TokenOf(loc, r.instanceKey))
    ensures var token := TokenOf(loc, r.instanceKey);
            HoldersIn(loc, records + [r], token)
            == SortBy(loc.lt, Self, HoldersIn(loc, records, token) + [r.instanceKey])
  {
    var token := TokenOf(loc, r.instanceKey);
    var pushed := HoldersIn(loc, records, token) + [r.instanceKey];
    var sorted := SortBy(loc.lt, Self, pushed);
    HoldersInSorted(loc, records, token);
    HoldersInSorted(loc, records + [r], token);
    SortAscending(loc.lt, Self, pushed);
    SortContents(loc.lt, Self, pushed);
    PushedDistinct(HoldersIn(loc, records, token), r.instanceKey);
    PermutedDistinct(Self, pushed, sorted);
    MultisetMembers(pushed, sorted);
    forall k ensures k in HoldersIn(loc, records + [r], token) <==> k in sorted {
      HoldersInMembers(loc, records, token, k);
      HoldersInMembers(loc, records + [r], token, k);
    }
    SameHolders(loc, HoldersIn(loc, records + [r], token), sorted);
  }

  lemma PushedDistinct(names: seq<string>, k: string)
    requires DistinctKeys(Self, names) && k !in names
    ensures DistinctKeys(Self, names + [k])
  {
    assert Self(k) == k && forall i :: 0 <= i < |names| ==> Self(names[i]) == names[i];
  }

  /** The Map from tokens to sorted instance keys, for some of the records; `tokens` are its keys. */
  ghost predicate ByToken(loc: Locale, records: seq<Route>, tokens: seq<string>, byToken: map<string, seq<string>>) {
    && (forall t :: t in tokens <==> t in byToken)
    && (forall t :: t in byToken ==> byToken[t] == HoldersIn(loc, records, t) && byToken[t] != [])
    && (forall t :: t !in byToken ==> HoldersIn(loc, records, t) == [])
  }

  lemma ByTokenKept(loc: Locale, records: seq<Route>, r: Route, tokens: seq<string>, byToken: map<string, seq<string>>)
    requires StrictTotal(loc.lt) && ByToken(loc, records, tokens, byToken)
    requires r.instanceKey in HoldersIn(loc, records, TokenOf(loc, r.instanceKey))
    ensures ByToken(loc, records + [r], tokens, byToken)
  {
    forall t ensures HoldersIn(loc, records + [r], t) == HoldersIn(loc, records, t) {
      HoldersKept(loc, records, r, t);
    }
  }

  lemma ByTokenGrown(loc: Locale, records: seq<Route>, r: Route, tokens: seq<string>, byToken: map<string, seq<string>>)
    requires StrictTotal(loc.lt) && ByToken(loc, records, tokens, byToken)
    requires r.instanceKey !in HoldersIn(loc, records, TokenOf(loc, r.instanceKey))
    ensures var token := TokenOf(loc, r.instanceKey);
            ByToken(loc, records + [r], if token in byToken then tokens else tokens + [token],
                    byToken[token := SortBy(loc.lt, Self, HoldersIn(loc, records, token) + [r.instanceKey])])
  {
    var token := TokenOf(loc, r.instanceKey);
    HoldersGrow(loc, records, r);
    HoldersInMembers(loc, records + [r], token, r.instanceKey);
    assert r in records + [r];
    forall t | t != token ensures HoldersIn(loc, records + [r], t) == HoldersIn(loc, records, t) {
      HoldersKept(loc, records, r, t);
    }
  }

  method GroupByToken(loc: Locale, records: seq<Route>) returns (tokens: seq<string>, byToken: map<string, seq<string>>)
    requires StrictTotal(loc.lt)
    ensures ByToken(loc, records, tokens, byToken)
  {
    tokens, byToken := [], map[];
    var n := 0;
    while n < |records|
      invariant n <= |records| && ByToken(loc, records[..n], tokens, byToken)
    {
      var instanceKey := records[n].instanceKey;
      var token := ToActionToken(loc.lower, instanceKey);
      assert records[..n + 1] == records[..n] + [records[n]];
      var existing := if token in byToken then byToken[token] else [];
      if instanceKey !in existing {
        ByTokenGrown(loc, records[..n], records[n], tokens, byToken);
        if token !in byToken {
          tokens := tokens + [token];
        }
        byToken := byToken[token := SortBy(loc.lt, Self, existing + [instanceKey])];
      } else {
        ByTokenKept(loc, records[..n], records[n], tokens, byToken);
      }
      n := n + 1;
    }
    assert records[..n] == records;
  }

  /** The j-th holder of a token is resolved to the token, numbered from the second on. */
  ghost predicate NamedAt(resolved: map<string, string>, token: string, held: seq<string>, j: nat) {
    j < |held| ==> held[j] in resolved && resolved[held[j]] == if j == 0 then token else Numbered(token, j + 1)
  }

  ghost predicate AllNamed(resolved: map<string, string>, token: string, held: seq<string>) {
    forall j :: 0 <= j < |held| ==> NamedAt(resolved, token, held, j)
  }

  /** The inner loop: every holder of one token gets its name, the other instance keys keep theirs. */
  method NameHolders(token: string, instanceKeys: seq<string>, before: map<string, string>)
    returns (resolved: map<string, string>)
    requires DistinctKeys(Self, instanceKeys)
    ensures AllNamed(resolved, token, instanceKeys)
    ensures forall k :: k in before && k !in instanceKeys ==> k in resolved && resolved[k] == before[k]
  {
    resolved := before;
    var index := 0;
    while index < |instanceKeys|
      invariant index <= |instanceKeys|
      invariant forall k :: k in before && k !in instanceKeys ==> k in resolved && resolved[k] == before[k]
      invariant forall j :: 0 <= j < index ==> NamedAt(resolved, token, instanceKeys, j)
    {
      ghost var earlier := resolved;
      resolved := resolved[instanceKeys[index] := if index == 0 then token else Numbered(token, index + 1)];
      forall j | 0 <= j < index ensures NamedAt(resolved, token, instanceKeys, j) {
        assert NamedAt(earlier, token, instanceKeys, j) && Self(instanceKeys[j]) != Self(instanceKeys[index]);
      }
      index := index + 1;
    }
  }

  lemma StillNamed(
      loc: Locale, records: seq<Route>, token: string, other: string, before: map<string, string>,
      resolved: map<string, string>)
    requires StrictTotal(loc.lt) && token != other
    requires AllNamed(before, other, HoldersIn(loc, records, other))
    requires forall k :: k in before && k !in HoldersIn(loc, records, token) ==>
               k in resolved && resolved[k] == before[k]
    ensures AllNamed(resolved, other, HoldersIn(loc, records, other))
  {
    var held := HoldersIn(loc, records, other);
    forall j | 0 <= j < |held| ensures NamedAt(resolved, other, held, j) {
      assert NamedAt(before, other, held, j);
      HoldersInMembers(loc, records, other, held[j]);
      HoldersInMembers(loc, records, token, held[j]);
    }
  }

  /** What the map gives an instance key: its token, numbered by its rank among the holders of that token. */
  method ResolveInstanceTokens(loc: Locale, records: seq<Route>) returns (resolved: map<string, string>)
    requires StrictTotal(loc.lt)
    ensures forall i :: 0 <= i < |SortedKeys(loc.lt, InstanceOf, records)| ==>
              HasInstanceToken(loc, records, resolved, i)
  {
    var tokens, byToken := GroupByToken(loc, records);
    var sorted := SortBy(loc.lt, Self, tokens);
    SortContents(loc.lt, Self, tokens);
    MultisetMembers(tokens, sorted);
    resolved := map[];
    var n := 0;
    while n < |sorted|
      invariant n <= |sorted| && FirstNamed(loc, records, resolved, sorted, n)
    {
      var token := sorted[n];
      ghost var before := resolved;
      HoldersInSorted(loc, records, token);
      resolved := NameHolders(token, byToken[token], resolved);
      OneMoreNamed(loc, records, sorted, n, before, resolved);
      n := n + 1;
    }
    assert sorted[..n] == sorted;
    TokensOfRecords(loc, records, tokens, byToken, resolved);
  }

  /** The holders of the first n tokens have their names. */
  ghost predicate FirstNamed(
      loc: Locale, records: seq<Route>, resolved: map<string, string>, tokens: seq<string>, n: nat)
  {
    n <= |tokens| && forall t :: t in tokens[..n] ==> AllNamed(resolved, t, HoldersIn(loc, records, t))
  }

  lemma OneMoreNamed(
      loc: Locale, records: seq<Route>, tokens: seq<string>, n: nat, before: map<string, string>,
      resolved: map<string, string>)
    requires StrictTotal(loc.lt) && n < |tokens| && FirstNamed(loc, records, before, tokens, n)
    requires AllNamed(resolved, tokens[n], HoldersIn(loc, records, tokens[n]))
    requires forall k :: k in before && k !in HoldersIn(loc, records, tokens[n]) ==>
               k in resolved && resolved[k] == before[k]
    ensures FirstNamed(loc, records, resolved, tokens, n + 1)
  {
    assert tokens[..n + 1] == tokens[..n] + [tokens[n]];
    forall t | t in tokens[..n + 1] ensures AllNamed(resolved, t, HoldersIn(loc, records, t)) {
      if t != tokens[n] {
        StillNamed(loc, records, tokens[n], t, before, resolved);
      }
    }
  }

  ghost predicate HasInstanceToken(loc: Locale, records: seq<Route>, resolved: map<string, string>, i: nat) {
    var ks := SortedKeys(loc.lt, InstanceOf, records);
    i < |ks| ==> ks[i] in resolved && resolved[ks[i]] == InstanceToken(loc, ks, i)
  }

  lemma TokensOfRecords(
      loc: Locale, records: seq<Route>, tokens: seq<string>, byToken: map<string, seq<string>>,
      resolved: map<string, string>)
    requires StrictTotal(loc.lt) && ByToken(loc, records, tokens, byToken)
    requires forall t :: t in tokens ==> AllNamed(resolved, t, HoldersIn(loc, records, t))
    ensures forall i :: 0 <= i < |SortedKeys(loc.lt, InstanceOf, records)| ==>
              HasInstanceToken(loc, records, resolved, i)
  {
    var ks := SortedKeys(loc.lt, InstanceOf, records);
    forall i: nat | i < |ks| ensures HasInstanceToken(loc, records, resolved, i) {
      var token := TokenOf(loc, ks[i]);
      HolderAt(loc, ks, i);
      assert token in byToken && token in tokens;
      assert NamedAt(resolved, token, HoldersIn(loc, records, token), Rank(loc, ks, i));
    }
  }
}
