/** Three namespaces made of digits, for which an alias of one tool is the identifier of another. */
module DispatchExample {
  import opened Common
  import opened Sorting
  import opened Grouping
  import opened Tokens
  import opened ActionIds
  import opened Routing
  import opened RoutingIds
  import opened RoutingTable
  import opened GroupNames
  import opened Dispatch

  function Digits(namespace: string): Inventory {
    Inventory(namespace, namespace, [Tool("x", "")])
  }

  function DigitInventories(): seq<Inventory> {
    [Digits("0"), Digits("1"), Digits("2")]
  }

  function DigitRoute(namespace: string): Route {
    Route("general", "x", "x", namespace, namespace, "x", Qualify(namespace, "x"), 1, [], "")
  }

  function DigitRoutes(): seq<Route> {
    [DigitRoute("0"), DigitRoute("1"), DigitRoute("2")]
  }

  /** A collation that orders the three qualified names in the usual way, and lower-casing that keeps these names. */
  ghost predicate Usual(loc: Locale) {
    && StrictTotal(loc.lt) && loc.lt("0:x", "1:x") && loc.lt("1:x", "2:x")
    && loc.lower("x") == "x" && loc.lower("0") == "0" && loc.lower("1") == "1" && loc.lower("2") == "2"
    && loc.lower(DESCRIBE_ACTION) == DESCRIBE_ACTION
  }

  lemma OneTool(loc: Locale, namespace: string)
    requires Usual(loc)
    ensures CandidatesOf(loc, "general", Digits(namespace), SortBy(loc.lt, ToolNameOf, Digits(namespace).tools))
            == [DigitRoute(namespace)]
  {
    var t := Tool("x", "");
    assert [t][1..] == [];
    assert SortBy(loc.lt, ToolNameOf, [t]) == [t];
    TokenFixed(loc.lower, "x");
    DescribeToken(loc.lower);
  }

  lemma DigitCandidates(loc: Locale)
    requires Usual(loc)
    ensures Candidates(loc, map[], DigitInventories()) == DigitRoutes()
  {
    var a, b, c := Digits("0"), Digits("1"), Digits("2");
    OneTool(loc, "0");
    OneTool(loc, "1");
    OneTool(loc, "2");
    assert [a, b, c][1..] == [b, c] && [b, c][1..] == [c] && [c][1..] == [];
    assert Candidates(loc, map[], [c]) == [DigitRoute("2")] + [];
    assert Candidates(loc, map[], [b, c]) == [DigitRoute("1")] + Candidates(loc, map[], [c]);
    assert Candidates(loc, map[], [a, b, c]) == [DigitRoute("0")] + Candidates(loc, map[], [b, c]);
  }

  lemma DigitGroup(loc: Locale)
    requires Usual(loc)
    ensures GroupRecords(loc, DigitRoutes(), GroupOf(DigitRoute("0"))) == DigitRoutes()
  {
    var a, b, c := DigitRoute("0"), DigitRoute("1"), DigitRoute("2");
    var key := GroupOf(a);
    assert GroupOf(b) == key && GroupOf(c) == key;
    assert [a, b, c][1..] == [b, c] && [b, c][1..] == [c] && [c][1..] == [];
    assert Select(GroupOf, [c], key) == [c];
    assert Select(GroupOf, [b, c], key) == [b, c];
    assert Select(GroupOf, [a, b, c], key) == [a, b, c];
    assert QualifiedOf(a) == "0:x" && QualifiedOf(b) == "1:x" && QualifiedOf(c) == "2:x";
    assert SortBy(loc.lt, QualifiedOf, [c]) == [c];
    assert SortBy(loc.lt, QualifiedOf, [b, c]) == [b, c];
    assert SortBy(loc.lt, QualifiedOf, [a, b, c]) == [a, b, c];
  }

  lemma DigitTokens(loc: Locale)
    requires Usual(loc)
    ensures TokenOf(loc, "0") == "0" && TokenOf(loc, "1") == "1" && TokenOf(loc, "2") == "2"
  {
    TokenFixed(loc.lower, "0");
    TokenFixed(loc.lower, "1");
    TokenFixed(loc.lower, "2");
  }

  lemma {:induction false} NotCounted(loc: Locale, ks: seq<string>, token: string)
    requires forall k :: k in ks ==> TokenOf(loc, k) != token
    ensures CountToken(loc, ks, token) == 0
  {
    if ks != [] {
      assert ks[|ks| - 1] in ks;
      NotCounted(loc, ks[..|ks| - 1], token);
    }
  }

  lemma DigitClash(loc: Locale, records: seq<Route>)
    requires Usual(loc) && records == DigitRoutes()
    ensures Clash(loc, records)
  {
    var ks := SortedKeys(loc.lt, InstanceOf, records);
    SortedKeysShape(loc.lt, InstanceOf, records);
    KeysMembers(InstanceOf, records, "2");
    assert InstanceOf(records[2]) == "2";
    var k :| 0 <= k < |ks| && ks[k] == "2";
    DigitTokens(loc);
    forall j | 0 <= j < k ensures TokenOf(loc, ks[j]) != "2" {
      assert Self(ks[j]) != Self(ks[k]);
      KeysMembers(InstanceOf, records, ks[j]);
    }
    NotCounted(loc, ks[..k], "2");
    SelectMembers(InstanceOf, records, "2", records[2]);
    var first := Select(InstanceOf, records, "2")[0];
    SelectMembers(InstanceOf, records, "2", first);
    assert Decimal(2) == "2";
    ClashFound(loc, records, k, 1);
  }

  lemma ClashFound(loc: Locale, records: seq<Route>, k: nat, i: nat)
    requires ClashAt(loc, records, SortedKeys(loc.lt, InstanceOf, records), k, i)
    ensures Clash(loc, records)
  {
  }

  /** In the table of these three namespaces not every name selects its own route. */
  lemma DigitTokensMisdirect(loc: Locale, visible: string -> bool)
    requires Usual(loc)
    ensures Proper(DigitInventories())
    ensures var routers := BuildRouters(loc, map[], DigitInventories());
            |routers| > 0 && !NamesSelectTheirOwn(loc.lt, routers[0].actions, visible)
  {
    var inventories, candidates := DigitInventories(), DigitRoutes();
    assert Proper(inventories) by {
      assert NamespaceOf(inventories[0]) == "0" && NamespaceOf(inventories[1]) == "1"
             && NamespaceOf(inventories[2]) == "2";
    }
    DigitCandidates(loc);
    CandidatesShape(loc, map[], inventories);
    CandidatesDistinct(loc, map[], inventories);
    var routes := Resolved(loc, candidates);
    var capabilities := SortedKeys(loc.lt, CapabilityOf, routes);
    OnlyGeneral(loc);
    RouterOf(loc, routes, capabilities, 0);
    DigitGroup(loc);
    DigitClash(loc, candidates);
    assert DigitRoute("0") in candidates;
    var actions := BuildRouters(loc, map[], inventories)[0].actions;
    assert RouterActions(loc, candidates, "general", actions);
    assert !NoClash(loc, candidates, "general");
    DispatchExact(loc, candidates, "general", actions, visible);
  }

  lemma SomeCapability(loc: Locale, inventories: seq<Inventory>)
    requires StrictTotal(loc.lt) && Candidates(loc, map[], inventories) != []
    ensures BuildRouters(loc, map[], inventories) != []
    ensures SortedKeys(loc.lt, CapabilityOf, Resolved(loc, Candidates(loc, map[], inventories))) != []
  {
    var routers := BuildRouters(loc, map[], inventories);
    RoutesAreTheTools(loc, map[], inventories);
    OriginsNames(AllRoutes(routers));
    assert |multiset(Origins(AllRoutes(routers)))| == |AllRoutes(routers)|;
    assert |multiset(Candidates(loc, map[], inventories))| == |Candidates(loc, map[], inventories)|;
  }

  lemma GeneralOnly(loc: Locale, candidates: seq<Route>, capability: string)
    requires StrictTotal(loc.lt) && AllCandidates(candidates)
    requires forall c :: c in candidates ==> c.capability == "general"
    requires capability in SortedKeys(loc.lt, CapabilityOf, Resolved(loc, candidates))
    ensures capability == "general"
  {
    var routes := Resolved(loc, candidates);
    SortedKeysShape(loc.lt, CapabilityOf, routes);
    KeysMembers(CapabilityOf, routes, capability);
    var i :| 0 <= i < |routes| && CapabilityOf(routes[i]) == capability;
    assert routes[i] in routes;
    ResolvedOrigin(loc, candidates, SortedKeys(loc.lt, GroupOf, candidates), routes[i]);
    assert Single(routes[i]).capability == "general";
  }

  lemma OnlyGeneral(loc: Locale)
    requires Usual(loc)
    ensures var capabilities := SortedKeys(loc.lt, CapabilityOf, Resolved(loc, DigitRoutes()));
            capabilities != [] && capabilities[0] == "general"
    ensures BuildRouters(loc, map[], DigitInventories()) != []
  {
    DigitCandidates(loc);
    CandidatesShape(loc, map[], DigitInventories());
    SomeCapability(loc, DigitInventories());
    GeneralOnly(loc, DigitRoutes(), SortedKeys(loc.lt, CapabilityOf, Resolved(loc, DigitRoutes()))[0]);
  }
}
