/** Routing neither loses nor invents tools, and the order in which inventories and tools arrive does not matter. */
module RoutingTable {
  import opened Common
  import opened Sorting
  import opened Grouping
  import opened Tokens
  import opened Routing
  import opened RoutingIds

  // ------------------------------------------------------------------ conservation

  /** The routes as they were before collisions were resolved. */
  function Origins(routes: seq<Route>): seq<Route> {
    if routes == [] then [] else [Single(routes[0])] + Origins(routes[1..])
  }

  lemma {:induction false} OriginsConcat(a: seq<Route>, b: seq<Route>)
    ensures Origins(a + b) == Origins(a) + Origins(b)
  {
    if a == [] {
      assert a + b == b;
    } else {
      assert (a + b)[1..] == a[1..] + b;
      OriginsConcat(a[1..], b);
    }
  }

  lemma {:induction false} OriginsPermuted(a: seq<Route>, b: seq<Route>)
    requires multiset(a) == multiset(b)
    ensures multiset(Origins(a)) == multiset(Origins(b))
    decreases |a|
  {
    if a == [] {
      assert |multiset(b)| == 0;
      assert b == [];
    } else {
      var k := HeadInPermutation(a, b);
      var fore, aft := b[..k], b[k + 1..];
      OriginsPermuted(a[1..], fore + aft);
      OriginsConcat(fore, [a[0]] + aft);
      OriginsConcat(fore, aft);
      assert ([a[0]] + aft)[1..] == aft;
    }
  }

  lemma {:induction false} OriginsOfStamped(records: seq<Route>, mine: seq<Route>, ids: seq<string>)
    requires |ids| == |mine| && AllCandidates(mine)
    ensures Origins(Stamp(records, mine, ids)) == mine
  {
    if mine != [] {
      OriginsOfStamped(records, mine[1..], ids[1..]);
      assert Stamp(records, mine, ids)[1..] == Stamp(records, mine[1..], ids[1..]);
      assert IsCandidate(mine[0]);
    }
  }

  lemma SelectCandidates(key: Route -> string, routes: seq<Route>, k: string)
    requires AllCandidates(routes)
    ensures AllCandidates(Select(key, routes, k))
  {
    forall r | r in Select(key, routes, k) ensures IsCandidate(r) {
      SelectMembers(key, routes, k, r);
    }
  }

  lemma {:induction false} EmitConserves(loc: Locale, records: seq<Route>, ks: seq<string>, i: nat, taken: set<string>)
    requires i <= |ks| && records != [] && AllCandidates(records)
    ensures Origins(Emit(loc, records, ks, i, taken)) == Regrouped(InstanceOf, records, ks[i..])
    decreases |ks| - i
  {
    if i < |ks| {
      var mine := Select(InstanceOf, records, ks[i]);
      var ids := EmitIds(taken, Joined(records[0].baseAction, InstanceToken(loc, ks, i)), |mine|, 0);
      SelectCandidates(InstanceOf, records, ks[i]);
      OriginsOfStamped(records, mine, ids);
      EmitConserves(loc, records, ks, i + 1, taken + Elements(ids));
      OriginsConcat(Stamp(records, mine, ids), Emit(loc, records, ks, i + 1, taken + Elements(ids)));
      assert ks[i..][1..] == ks[i + 1..];
    }
  }

  lemma GroupConserves(loc: Locale, records: seq<Route>)
    requires StrictTotal(loc.lt) && records != [] && AllCandidates(records)
    ensures multiset(Origins(ResolveGroup(loc, records))) == multiset(records)
  {
    if |records| == 1 {
      assert records == [records[0]] && IsCandidate(records[0]);
      assert [records[0]][1..] == [];
    } else {
      var ks := SortedKeys(loc.lt, InstanceOf, records);
      EmitConserves(loc, records, ks, 0, {});
      assert ks[0..] == ks;
      RegroupedContents(loc.lt, InstanceOf, records);
    }
  }

  lemma {:induction false} ResolveConserves(loc: Locale, candidates: seq<Route>, keys: seq<string>)
    requires StrictTotal(loc.lt) && AllCandidates(candidates)
    ensures multiset(Origins(ResolveGroups(loc, candidates, keys))) == multiset(Regrouped(GroupOf, candidates, keys))
  {
    if keys != [] {
      var records := GroupRecords(loc, candidates, keys[0]);
      var here := if records == [] then [] else ResolveGroup(loc, records);
      GroupRecordsShape(loc, candidates, keys[0]);
      SortContents(loc.lt, QualifiedOf, Select(GroupOf, candidates, keys[0]));
      if records != [] {
        GroupConserves(loc, records);
      }
      ResolveConserves(loc, candidates, keys[1..]);
      OriginsConcat(here, ResolveGroups(loc, candidates, keys[1..]));
    }
  }

  lemma {:induction false} RoutersConserve(loc: Locale, routes: seq<Route>, capabilities: seq<string>)
    ensures multiset(AllRoutes(RoutersFor(loc, routes, capabilities)))
            == multiset(Regrouped(CapabilityOf, routes, capabilities))
  {
    if capabilities != [] {
      var rest := RoutersFor(loc, routes, capabilities[1..]);
      RoutersConserve(loc, routes, capabilities[1..]);
      SortContents(loc.lt, ActionOf, Select(CapabilityOf, routes, capabilities[0]));
      assert RoutersFor(loc, routes, capabilities)[1..] == rest;
    }
  }

  /** The routes of all routers are the tools of all inventories, each once, with nothing but its name resolved. */
  lemma RoutesAreTheTools(loc: Locale, grouping: map<string, string>, inventories: seq<Inventory>)
    requires StrictTotal(loc.lt)
    ensures multiset(Origins(AllRoutes(BuildRouters(loc, grouping, inventories))))
            == multiset(Candidates(loc, grouping, inventories))
  {
    var candidates := Candidates(loc, grouping, inventories);
    var routes := Resolved(loc, candidates);
    CandidatesShape(loc, grouping, inventories);
    ResolveConserves(loc, candidates, SortedKeys(loc.lt, GroupOf, candidates));
    RegroupedContents(loc.lt, GroupOf, candidates);
    RoutersConserve(loc, routes, SortedKeys(loc.lt, CapabilityOf, routes));
    RegroupedContents(loc.lt, CapabilityOf, routes);
    OriginsPermuted(AllRoutes(Routers(loc, routes)), routes);
  }

  // ------------------------------------------------------------------ one route per tool

  ghost predicate ColonFree(s: string) {
    forall i :: 0 <= i < |s| ==> s[i] != ':'
  }

  /** Distinct colon-free namespaces, each with distinct tool names. */
  ghost predicate Proper(inventories: seq<Inventory>) {
    && DistinctKeys(NamespaceOf, inventories)
    && forall v :: v in inventories ==> ColonFree(v.namespace) && DistinctKeys(ToolNameOf, v.tools)
  }

  lemma QualifyInjective(m: string, s: string, n: string, t: string)
    requires ColonFree(m) && ColonFree(n) && Qualify(m, s) == Qualify(n, t)
    ensures m == n && s == t
  {
    var a, b := Qualify(m, s), Qualify(n, t);
    assert a[|m|] == ':' && b[|n|] == ':';
    assert (forall i :: 0 <= i < |m| ==> a[i] == m[i]) && (forall i :: 0 <= i < |n| ==> b[i] == n[i]);
    assert |m| == |n|;
    assert m == a[..|m|] && n == b[..|n|] && s == a[|m| + 1..] && t == b[|n| + 1..];
  }

  /** What is known about every candidate: the inventory and the tool it was made from. */
  lemma {:induction false} CandidatesOfSource(loc: Locale, capability: string, v: Inventory, tools: seq<Tool>, r: Route)
    ensures r in CandidatesOf(loc, capability, v, tools)
            <==> exists t :: t in tools && r == Candidate(loc, capability, v, t)
  {
    if tools != [] {
      CandidatesOfSource(loc, capability, v, tools[1..], r);
      assert tools == [tools[0]] + tools[1..];
    }
  }

  lemma {:induction false} CandidatesSource(
      loc: Locale, grouping: map<string, string>, inventories: seq<Inventory>, r: Route)
    ensures r in Candidates(loc, grouping, inventories) <==>
            exists v, t :: v in inventories && t in v.tools
                        && r == Candidate(loc, CapabilityFor(grouping, v.namespace), v, t)
  {
    if inventories != [] {
      var first := inventories[0];
      var sorted := SortBy(loc.lt, ToolNameOf, first.tools);
      CandidatesSource(loc, grouping, inventories[1..], r);
      CandidatesOfSource(loc, CapabilityFor(grouping, first.namespace), first, sorted, r);
      SortContents(loc.lt, ToolNameOf, first.tools);
      MultisetMembers(sorted, first.tools);
      assert inventories == [first] + inventories[1..];
    }
  }

  lemma {:induction false} CandidatesOfDistinct(loc: Locale, capability: string, v: Inventory, tools: seq<Tool>)
    requires DistinctKeys(ToolNameOf, tools)
    ensures DistinctKeys(QualifiedOf, CandidatesOf(loc, capability, v, tools))
  {
    if tools != [] {
      CandidatesOfDistinct(loc, capability, v, tools[1..]);
      var rest := CandidatesOf(loc, capability, v, tools[1..]);
      var first := Candidate(loc, capability, v, tools[0]);
      forall j | 0 <= j < |rest| ensures first.qualifiedName != rest[j].qualifiedName {
        CandidatesOfSource(loc, capability, v, tools[1..], rest[j]);
        var t :| t in tools[1..] && rest[j] == Candidate(loc, capability, v, t);
        var k :| 0 <= k < |tools[1..]| && tools[1..][k] == t;
        assert ToolNameOf(tools[0]) != ToolNameOf(tools[k + 1]);
        assert first.qualifiedName[|v.namespace| + 1..] == tools[0].name;
        assert rest[j].qualifiedName[|v.namespace| + 1..] == t.name;
      }
    }
  }

  lemma OthersAreApart(inventories: seq<Inventory>, v: Inventory)
    requires Proper(inventories) && inventories != [] && v in inventories[1..]
    ensures inventories[0] in inventories && v in inventories && v.namespace != inventories[0].namespace
  {
    var k :| 0 <= k < |inventories[1..]| && inventories[1..][k] == v;
    assert NamespaceOf(inventories[0]) != NamespaceOf(inventories[k + 1]);
  }

  /** A tool of the first inventory and one of the others have different qualified names. */
  lemma ApartAcrossInventories(
      loc: Locale, grouping: map<string, string>, inventories: seq<Inventory>, tools: seq<Tool>, x: Route, y: Route)
    requires Proper(inventories) && inventories != []
    requires x in CandidatesOf(loc, CapabilityFor(grouping, inventories[0].namespace), inventories[0], tools)
    requires y in Candidates(loc, grouping, inventories[1..])
    ensures x.qualifiedName != y.qualifiedName
  {
    var first, others := inventories[0], inventories[1..];
    var capability := CapabilityFor(grouping, first.namespace);
    CandidatesOfSource(loc, capability, first, tools, x);
    CandidatesSource(loc, grouping, others, y);
    var t :| t in tools && x == Candidate(loc, capability, first, t);
    var v, u :| v in others && u in v.tools && y == Candidate(loc, CapabilityFor(grouping, v.namespace), v, u);
    OthersAreApart(inventories, v);
    if x.qualifiedName == y.qualifiedName {
      QualifyInjective(first.namespace, t.name, v.namespace, u.name);
    }
  }

  lemma {:induction false} CandidatesDistinct(loc: Locale, grouping: map<string, string>, inventories: seq<Inventory>)
    requires Proper(inventories)
    ensures DistinctKeys(QualifiedOf, Candidates(loc, grouping, inventories))
  {
    if inventories != [] {
      var first, others := inventories[0], inventories[1..];
      assert inventories == [first] + others;
      var capability := CapabilityFor(grouping, first.namespace);
      var sorted := SortBy(loc.lt, ToolNameOf, first.tools);
      CandidatesDistinct(loc, grouping, others);
      SortContents(loc.lt, ToolNameOf, first.tools);
      PermutedDistinct(ToolNameOf, first.tools, sorted);
      CandidatesOfDistinct(loc, capability, first, sorted);
      var a, b := CandidatesOf(loc, capability, first, sorted), Candidates(loc, grouping, others);
      forall x, y | x in a && y in b ensures x.qualifiedName != y.qualifiedName {
        ApartAcrossInventories(loc, grouping, inventories, sorted, x, y);
      }
      ConcatDistinct(QualifiedOf, a, b);
    }
  }

  lemma {:induction false} OriginsNames(routes: seq<Route>)
    ensures |Origins(routes)| == |routes|
    ensures forall i :: 0 <= i < |routes| ==> Origins(routes)[i] == Single(routes[i])
  {
    if routes != [] {
      OriginsNames(routes[1..]);
    }
  }

  /** The route is made from the tool of the inventory. */
  predicate MadeFrom(loc: Locale, grouping: map<string, string>, v: Inventory, t: Tool, r: Route) {
    && r.capability == (if v.namespace in grouping then grouping[v.namespace] else "general")
    && r.baseAction == BaseAction(loc.lower, t.name)
    && r.instanceKey == v.namespace && r.instanceTitle == v.title
    && r.toolName == t.name && r.qualifiedName == v.namespace + ":" + t.name && r.detail == t.detail
  }

  lemma CandidateIsMade(loc: Locale, grouping: map<string, string>, v: Inventory, t: Tool, r: Route)
    ensures Single(r) == Candidate(loc, CapabilityFor(grouping, v.namespace), v, t)
            <==> MadeFrom(loc, grouping, v, t, r)
  {
  }

  /** Routing is one-to-one: every tool has exactly one route, and every route comes from a tool. */
  lemma OneRoutePerTool(loc: Locale, grouping: map<string, string>, inventories: seq<Inventory>, v: Inventory, t: Tool)
    requires StrictTotal(loc.lt) && Proper(inventories) && v in inventories && t in v.tools
    ensures var routes := AllRoutes(BuildRouters(loc, grouping, inventories));
            DistinctKeys(QualifiedOf, routes) && exists r :: r in routes && MadeFrom(loc, grouping, v, t, r)
  {
    var routes := AllRoutes(BuildRouters(loc, grouping, inventories));
    var candidates := Candidates(loc, grouping, inventories);
    var c := Candidate(loc, CapabilityFor(grouping, v.namespace), v, t);
    RoutesAreTheTools(loc, grouping, inventories);
    CandidatesDistinct(loc, grouping, inventories);
    PermutedDistinct(QualifiedOf, candidates, Origins(routes));
    OriginsNames(routes);
    assert forall i :: 0 <= i < |routes| ==> QualifiedOf(Origins(routes)[i]) == QualifiedOf(routes[i]);
    CandidatesSource(loc, grouping, inventories, c);
    MultisetMembers(candidates, Origins(routes));
    assert c in Origins(routes);
    var i :| 0 <= i < |Origins(routes)| && Origins(routes)[i] == c;
    CandidateIsMade(loc, grouping, v, t, routes[i]);
    assert routes[i] in routes;
  }

  lemma RoutesComeFromTools(loc: Locale, grouping: map<string, string>, inventories: seq<Inventory>, r: Route)
    requires StrictTotal(loc.lt) && r in AllRoutes(BuildRouters(loc, grouping, inventories))
    ensures exists v, t :: v in inventories && t in v.tools && MadeFrom(loc, grouping, v, t, r)
  {
    var routes := AllRoutes(BuildRouters(loc, grouping, inventories));
    RoutesAreTheTools(loc, grouping, inventories);
    OriginsNames(routes);
    MultisetMembers(Candidates(loc, grouping, inventories), Origins(routes));
    var i :| 0 <= i < |routes| && routes[i] == r;
    assert Origins(routes)[i] in Origins(routes);
    CandidatesSource(loc, grouping, inventories, Single(r));
    var v, t :| v in inventories && t in v.tools
                && Single(r) == Candidate(loc, CapabilityFor(grouping, v.namespace), v, t);
    CandidateIsMade(loc, grouping, v, t, r);
  }

  // ------------------------------------------------------------------ order is irrelevant

  lemma {:induction false} GroupsCanonical(loc: Locale, a: seq<Route>, b: seq<Route>, keys: seq<string>)
    requires StrictTotal(loc.lt) && multiset(a) == multiset(b) && DistinctKeys(QualifiedOf, a)
    ensures ResolveGroups(loc, a, keys) == ResolveGroups(loc, b, keys)
  {
    if keys != [] {
      SelectPermuted(GroupOf, a, b, keys[0]);
      SelectDistinct(GroupOf, QualifiedOf, a, keys[0]);
      SortCanonical(loc.lt, QualifiedOf, Select(GroupOf, a, keys[0]), Select(GroupOf, b, keys[0]));
      GroupsCanonical(loc, a, b, keys[1..]);
    }
  }

  lemma {:induction false} CandidatesConcat(
      loc: Locale, grouping: map<string, string>, a: seq<Inventory>, b: seq<Inventory>)
    ensures Candidates(loc, grouping, a + b) == Candidates(loc, grouping, a) + Candidates(loc, grouping, b)
  {
    if a == [] {
      assert a + b == b;
    } else {
      assert (a + b)[1..] == a[1..] + b;
      CandidatesConcat(loc, grouping, a[1..], b);
    }
  }

  lemma {:induction false} CandidatesPermuted(
      loc: Locale, grouping: map<string, string>, a: seq<Inventory>, b: seq<Inventory>)
    requires multiset(a) == multiset(b)
    ensures multiset(Candidates(loc, grouping, a)) == multiset(Candidates(loc, grouping, b))
    decreases |a|
  {
    if a == [] {
      assert |multiset(b)| == 0;
      assert b == [];
    } else {
      var k := HeadInPermutation(a, b);
      var fore, aft := b[..k], b[k + 1..];
      CandidatesPermuted(loc, grouping, a[1..], fore + aft);
      CandidatesConcat(loc, grouping, fore, [a[0]] + aft);
      CandidatesConcat(loc, grouping, fore, aft);
      assert ([a[0]] + aft)[1..] == aft;
    }
  }

  /** The same inventories in the same order, each with its tools in some other order. */
  ghost predicate ToolsRearranged(a: seq<Inventory>, b: seq<Inventory>) {
    && |a| == |b|
    && forall i :: 0 <= i < |a| ==>
         b[i] == a[i].(tools := b[i].tools) && multiset(b[i].tools) == multiset(a[i].tools)
  }

  lemma {:induction false} CandidatesIgnoreToolOrder(
      loc: Locale, grouping: map<string, string>, a: seq<Inventory>, b: seq<Inventory>)
    requires StrictTotal(loc.lt) && ToolsRearranged(a, b)
    requires forall v :: v in a ==> DistinctKeys(ToolNameOf, v.tools)
    ensures Candidates(loc, grouping, a) == Candidates(loc, grouping, b)
  {
    if a != [] {
      assert a[0] in a;
      SortCanonical(loc.lt, ToolNameOf, a[0].tools, b[0].tools);
      var sorted := SortBy(loc.lt, ToolNameOf, a[0].tools);
      CandidatesOfSame(loc, CapabilityFor(grouping, a[0].namespace), a[0], b[0], sorted);
      CandidatesIgnoreToolOrder(loc, grouping, a[1..], b[1..]);
    }
  }

  lemma {:induction false} CandidatesOfSame(
      loc: Locale, capability: string, v: Inventory, w: Inventory, tools: seq<Tool>)
    requires v.namespace == w.namespace && v.title == w.title
    ensures CandidatesOf(loc, capability, v, tools) == CandidatesOf(loc, capability, w, tools)
  {
    if tools != [] {
      CandidatesOfSame(loc, capability, v, w, tools[1..]);
    }
  }

  /** Permuting the inventories, and the tools inside any of them, leaves the whole table as it was. */
  lemma OrderIsIrrelevant(
      loc: Locale, grouping: map<string, string>, a: seq<Inventory>, mid: seq<Inventory>, b: seq<Inventory>)
    requires StrictTotal(loc.lt) && Proper(a)
    requires multiset(a) == multiset(mid) && ToolsRearranged(mid, b)
    ensures BuildRouters(loc, grouping, a) == BuildRouters(loc, grouping, b)
  {
    var ca, cb := Candidates(loc, grouping, a), Candidates(loc, grouping, b);
    MultisetMembers(a, mid);
    CandidatesPermuted(loc, grouping, a, mid);
    CandidatesIgnoreToolOrder(loc, grouping, mid, b);
    CandidatesDistinct(loc, grouping, a);
    SortedKeysCanonical(loc.lt, GroupOf, ca, cb);
    GroupsCanonical(loc, ca, cb, SortedKeys(loc.lt, GroupOf, ca));
  }
}
