/** The names and the order of the table (src/capabilities/routing.ts:94-308), spelled out. */
module RoutingExact {
  import opened Common
  import opened Sorting
  import opened Grouping
  import opened Tokens
  import opened ActionIds
  import opened Routing
  import opened RoutingIds
  import opened RoutingTable
  import opened GroupNames
  import opened Dispatch

  // ------------------------------------------------------------------ tokens of instances

  /** The earlier instance keys with the same token. */
  function EarlierHolders(loc: Locale, ks: seq<string>, i: nat): set<nat>
    requires i < |ks|
  {
    set j: nat | j < i && TokenOf(loc, ks[j]) == TokenOf(loc, ks[i])
  }

  function HoldersBelow(loc: Locale, ks: seq<string>, token: string): set<nat> {
    set j: nat | j < |ks| && TokenOf(loc, ks[j]) == token
  }

  lemma HolderNext(loc: Locale, ks: seq<string>, last: string, token: string, j: nat)
    ensures j in HoldersBelow(loc, ks + [last], token)
            <==> j in HoldersBelow(loc, ks, token) || (j == |ks| && TokenOf(loc, last) == token)
  {
    var all := ks + [last];
    assert all[|ks|] == last;
    if j < |ks| {
      assert all[j] == ks[j];
    }
  }

  lemma HoldersNext(loc: Locale, ks: seq<string>, last: string, token: string)
    ensures |HoldersBelow(loc, ks + [last], token)|
            == |HoldersBelow(loc, ks, token)| + if TokenOf(loc, last) == token then 1 else 0
  {
    var early, all := HoldersBelow(loc, ks, token), HoldersBelow(loc, ks + [last], token);
    var more: set<nat> := if TokenOf(loc, last) == token then {|ks|} else {};
    forall j: nat ensures j in all <==> j in early + more {
      HolderNext(loc, ks, last, token, j);
    }
    assert all == early + more && early !! more;
  }

  lemma {:induction false} CountIsSize(loc: Locale, ks: seq<string>, token: string)
    ensures CountToken(loc, ks, token) == |HoldersBelow(loc, ks, token)|
  {
    if ks == [] {
      assert HoldersBelow(loc, ks, token) == {};
    } else {
      var init, last := ks[..|ks| - 1], ks[|ks| - 1];
      CountIsSize(loc, init, token);
      HoldersNext(loc, init, last, token);
      assert ks == init + [last];
    }
  }

  lemma RankIsSize(loc: Locale, ks: seq<string>, i: nat)
    requires i < |ks|
    ensures Rank(loc, ks, i) == |EarlierHolders(loc, ks, i)|
  {
    CountIsSize(loc, ks[..i], TokenOf(loc, ks[i]));
    assert HoldersBelow(loc, ks[..i], TokenOf(loc, ks[i])) == EarlierHolders(loc, ks, i);
  }

  /** The first holder of a token has the token itself, the n-th has the token and "__n". */
  lemma InstanceTokenExactly(loc: Locale, ks: seq<string>, i: nat)
    requires i < |ks|
    ensures var n, token := |EarlierHolders(loc, ks, i)| + 1, TokenOf(loc, ks[i]);
            InstanceToken(loc, ks, i) == if n == 1 then token else token + "__" + Decimal(n)
  {
    RankIsSize(loc, ks, i);
  }

  /** No two instances share one. */
  lemma InstanceTokensDiffer(loc: Locale, ks: seq<string>, i: nat, j: nat)
    requires i < j < |ks|
    ensures InstanceToken(loc, ks, i) != InstanceToken(loc, ks, j)
  {
    var x, y := TokenOf(loc, ks[i]), TokenOf(loc, ks[j]);
    TokenShape(loc.lower, ks[i]);
    TokenShape(loc.lower, ks[j]);
    if x == y {
      LaterRank(loc, ks, i, j);
      TokensOfRanks(x, Rank(loc, ks, i), Rank(loc, ks, j));
    } else {
      TokensOfOthers(x, Rank(loc, ks, i), y, Rank(loc, ks, j));
    }
  }

  function Ranked(token: string, rank: nat): string {
    if rank == 0 then token else Numbered(token, rank + 1)
  }

  lemma TokensOfRanks(x: string, m: nat, n: nat)
    requires m != n
    ensures Ranked(x, m) != Ranked(x, n)
  {
    JoinedParts(x, Decimal(m + 1));
    JoinedParts(x, Decimal(n + 1));
    if Numbered(x, m + 1) == Numbered(x, n + 1) {
      NumberedInjective(x, m + 1, n + 1);
    }
  }

  lemma TokensOfOthers(x: string, m: nat, y: string, n: nat)
    requires IsToken(x) && IsToken(y) && x != y
    ensures Ranked(x, m) != Ranked(y, n)
  {
    TokenIsNotJoined(x, y, Decimal(n + 1));
    TokenIsNotJoined(y, x, Decimal(m + 1));
    if Numbered(x, m + 1) == Numbered(y, n + 1) {
      JoinedUnique(x, Decimal(m + 1), y, Decimal(n + 1));
    }
  }

  lemma {:induction false} CountGrows(loc: Locale, ks: seq<string>, k: nat, token: string)
    requires k <= |ks|
    ensures CountToken(loc, ks[..k], token) <= CountToken(loc, ks, token)
  {
    if k == |ks| {
      assert ks[..k] == ks;
    } else {
      CountGrows(loc, ks[..|ks| - 1], k, token);
      assert ks[..|ks| - 1][..k] == ks[..k];
    }
  }

  lemma LaterRank(loc: Locale, ks: seq<string>, i: nat, j: nat)
    requires i < j < |ks| && TokenOf(loc, ks[i]) == TokenOf(loc, ks[j])
    ensures Rank(loc, ks, i) < Rank(loc, ks, j)
  {
    var token := TokenOf(loc, ks[j]);
    assert ks[..i + 1][..i] == ks[..i];
    assert ks[..j][..i + 1] == ks[..i + 1];
    CountGrows(loc, ks[..j], i + 1, token);
  }

  // ------------------------------------------------------------------ identifiers

  /** What is tried for the record at a place among those of its instance, one name after the other. */
  lemma AttemptsSpelled(actionBase: string, index: nat, i: nat)
    ensures Attempt(actionBase, index, 0) == if index == 0 then actionBase else actionBase + "__" + Decimal(index + 1)
    ensures SuffixMatch(actionBase) == None && i > 0 ==>
              Attempt(actionBase, index, i) == actionBase + "__" + Decimal(index + 1 + i)
    ensures forall stem, n: nat :: actionBase == stem + "__" + Decimal(n) && i > 0 ==>
              Attempt(actionBase, index, i) == stem + "__" + Decimal(n + i)
  {
    forall stem, n: nat | actionBase == stem + "__" + Decimal(n) && i > 0
      ensures Attempt(actionBase, index, i) == stem + "__" + Decimal(n + i)
    {
      AttemptsOfNumbered(stem, n, index, i);
    }
  }

  lemma AttemptsOfNumbered(stem: string, n: nat, index: nat, i: nat)
    requires i > 0
    ensures Attempt(stem + "__" + Decimal(n), index, i) == stem + "__" + Decimal(n + i)
  {
    DecimalRoundTrip(n);
    SuffixOfNumbered(stem, Decimal(n));
  }

  /** Where the record is among those of its instance. */
  ghost predicate PlacedAt(records: seq<Route>, r: Route, j: nat) {
    var mine := Select(InstanceOf, records, r.instanceKey);
    j < |mine| && mine[j] == Single(r)
  }

  /** The identifier of a record of the first instance with its token: base, token, and its place from the second on. */
  ghost predicate NamedByPlace(loc: Locale, b: string, r: Route, j: nat) {
    r.action == if j == 0 then b + "__" + TokenOf(loc, r.instanceKey)
                else b + "__" + TokenOf(loc, r.instanceKey) + "__" + Decimal(j + 1)
  }

  lemma {:induction false} EmitPlaces(
      loc: Locale, records: seq<Route>, ks: seq<string>, i: nat, taken: set<string>, r: Route)
    returns (k: nat, j: nat)
    requires i <= |ks| && records != [] && AllCandidates(records)
    requires TakenBy(loc, records[0].baseAction, taken, ks[..i]) && r in Emit(loc, records, ks, i, taken)
    ensures k < |ks| && ks[k] == r.instanceKey && PlacedAt(records, r, j)
    ensures Rank(loc, ks, k) == 0 ==> NamedByPlace(loc, records[0].baseAction, r, j)
    decreases |ks| - i
  {
    var b := records[0].baseAction;
    var mine := Select(InstanceOf, records, ks[i]);
    var ids := EmitIds(taken, Joined(b, InstanceToken(loc, ks, i)), |mine|, 0);
    var here := Stamp(records, mine, ids);
    if r in here {
      var n :| 0 <= n < |here| && here[n] == r;
      SelectMembers(InstanceOf, records, ks[i], mine[n]);
      assert IsCandidate(mine[n]) && Single(r) == mine[n];
      k, j := i, n;
      if Rank(loc, ks, i) == 0 {
        FirstHolderIds(loc, b, ks, i, taken, |mine|, n);
      }
    } else {
      NextTaken(loc, b, ks, i, taken, |mine|);
      k, j := EmitPlaces(loc, records, ks, i + 1, taken + Elements(ids), r);
    }
  }

  lemma FirstHolderIds(loc: Locale, b: string, ks: seq<string>, i: nat, taken: set<string>, count: nat, j: nat)
    requires i < |ks| && Rank(loc, ks, i) == 0 && TakenBy(loc, b, taken, ks[..i]) && j < count
    ensures EmitIds(taken, Joined(b, InstanceToken(loc, ks, i)), count, 0)[j] ==
            if j == 0 then b + "__" + TokenOf(loc, ks[i]) else b + "__" + TokenOf(loc, ks[i]) + "__" + Decimal(j + 1)
  {
    var x := TokenOf(loc, ks[i]);
    forall k: nat ensures FirstChoice(Joined(b, x), k) !in taken {
      FirstRankIsFree(loc, b, ks, i, taken, k);
    }
    UndisturbedIds(taken, Joined(b, x), count, 0, j);
  }

  /**
   * In a collision group, a route whose instance is the first with its token is named by base, token and its place
   * among the records of its instance; a route without collision has its base action.
   */
  lemma IdentifierExactly(loc: Locale, candidates: seq<Route>, r: Route) returns (ks: seq<string>, k: nat, j: nat)
    requires StrictTotal(loc.lt)
    requires AllCandidates(candidates) && DistinctKeys(QualifiedOf, candidates) && r in Resolved(loc, candidates)
    ensures var records := GroupRecords(loc, candidates, GroupOf(r));
            && r.collisionGroupSize == |records|
            && if |records| == 1 then r.action == r.baseAction
               else
                 && ks == SortedKeys(loc.lt, InstanceOf, records) && k < |ks| && ks[k] == r.instanceKey
                 && PlacedAt(records, r, j)
                 && (EarlierHolders(loc, ks, k) == {} ==> NamedByPlace(loc, r.baseAction, r, j))
  {
    var records := OwnGroup(loc, candidates, r);
    ks, k, j := SortedKeys(loc.lt, InstanceOf, records), 0, 0;
    if |records| > 1 {
      k, j := EmitPlaces(loc, records, ks, 0, {}, r);
      EmitOrigin(loc, records, ks, 0, {}, r);
      RankIsSize(loc, ks, k);
    }
  }

  // ------------------------------------------------------------------ order

  /** Routers come in the order of their capabilities, each with its actions in order. */
  lemma TableIsSorted(loc: Locale, grouping: map<string, string>, inventories: seq<Inventory>, i: nat, j: nat)
    requires StrictTotal(loc.lt) && Proper(inventories) && i < j < |BuildRouters(loc, grouping, inventories)|
    ensures var routers := BuildRouters(loc, grouping, inventories);
            && routers[i].capability != routers[j].capability
            && !loc.lt(routers[j].capability, routers[i].capability)
            && Ascending(loc.lt, ActionOf, routers[i].actions) && Ascending(loc.lt, ActionOf, routers[j].actions)
            && forall r :: r in routers[i].actions ==> r.capability == routers[i].capability
  {
    var candidates := Candidates(loc, grouping, inventories);
    var routes := Resolved(loc, candidates);
    var capabilities := SortedKeys(loc.lt, CapabilityOf, routes);
    SortedKeysShape(loc.lt, CapabilityOf, routes);
    RouterOf(loc, routes, capabilities, i);
    RouterOf(loc, routes, capabilities, j);
    assert Self(capabilities[i]) != Self(capabilities[j]) && !loc.lt(Self(capabilities[j]), Self(capabilities[i]));
    SortAscending(loc.lt, ActionOf, Select(CapabilityOf, routes, capabilities[i]));
    SortAscending(loc.lt, ActionOf, Select(CapabilityOf, routes, capabilities[j]));
    RouterAt(loc, grouping, inventories, i);
    var router := BuildRouters(loc, grouping, inventories)[i];
    forall r | r in router.actions ensures r.capability == router.capability {
      ActionsMembers(loc, candidates, router.capability, router.actions, r);
    }
  }
}
