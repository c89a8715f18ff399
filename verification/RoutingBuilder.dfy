/**
 * The loops of buildCapabilityRouters (src/capabilities/routing.ts:137-308), each proved to compute its part of the
 * table.
 */
module RoutingBuilder {
  import opened Common
  import opened Sorting
  import opened Grouping
  import opened Tokens
  import opened ActionIds
  import opened Routing
  import opened RoutingIds
  import opened RoutingTable
  import opened GroupNames
  import opened RoutingTokens

  // ------------------------------------------------------------------ Maps of lists

  /** A Map from keys to the elements with that key; `order` is its key order. */
  ghost predicate Grouped<T>(key: T -> string, xs: seq<T>, order: seq<string>, groups: map<string, seq<T>>) {
    && order == Distinct(Keys(key, xs))
    && (forall k :: k in order <==> k in groups)
    && (forall k :: k in groups ==> groups[k] == Select(key, xs, k))
    && (forall k :: k !in groups ==> Select(key, xs, k) == [])
  }

  lemma {:induction false} SelectSnoc<T>(key: T -> string, xs: seq<T>, x: T, k: string)
    ensures Select(key, xs + [x], k) == Select(key, xs, k) + (if key(x) == k then [x] else [])
  {
    if xs == [] {
      assert [x] == [] + [x];
      assert [x][1..] == [];
    } else {
      assert (xs + [x])[1..] == xs[1..] + [x];
      SelectSnoc(key, xs[1..], x, k);
    }
  }

  lemma {:induction false} KeysSnoc<T>(key: T -> string, xs: seq<T>, x: T)
    ensures Keys(key, xs + [x]) == Keys(key, xs) + [key(x)]
  {
    if xs == [] {
      assert [x] == [] + [x];
      assert [x][1..] == [];
    } else {
      assert (xs + [x])[1..] == xs[1..] + [x];
      KeysSnoc(key, xs[1..], x);
    }
  }

  lemma GroupedNext<T>(key: T -> string, all: seq<T>, n: nat, order: seq<string>, groups: map<string, seq<T>>)
    requires n < |all| && Grouped(key, all[..n], order, groups)
    ensures var k := key(all[n]);
            Grouped(key, all[..n + 1], if k in groups then order else order + [k],
                    groups[k := (if k in groups then groups[k] else []) + [all[n]]])
  {
    var xs, x := all[..n], all[n];
    assert all[..n + 1] == xs + [x];
    KeysSnoc(key, xs, x);
    var names := Keys(key, xs);
    assert (names + [key(x)])[..|names|] == names;
    forall k ensures Select(key, xs + [x], k) == Select(key, xs, k) + (if key(x) == k then [x] else []) {
      SelectSnoc(key, xs, x, k);
    }
  }

  method GroupBy<T>(key: T -> string, xs: seq<T>) returns (order: seq<string>, groups: map<string, seq<T>>)
    ensures Grouped(key, xs, order, groups)
  {
    order, groups := [], map[];
    var n := 0;
    while n < |xs|
      invariant n <= |xs| && Grouped(key, xs[..n], order, groups)
    {
      GroupedNext(key, xs, n, order, groups);
      var k := key(xs[n]);
      var existing := if k in groups then groups[k] else [];
      if k !in groups {
        order := order + [k];
      }
      groups := groups[k := existing + [xs[n]]];
      n := n + 1;
    }
    assert xs[..n] == xs;
  }

  // ------------------------------------------------------------------ sorting again what is sorted

  lemma {:induction false} SortedStays<T>(lt: Order, key: T -> string, xs: seq<T>)
    requires Ascending(lt, key, xs)
    ensures SortBy(lt, key, xs) == xs
  {
    if xs != [] {
      SortedStays(lt, key, xs[1..]);
      assert xs == [xs[0]] + xs[1..];
    }
  }

  lemma {:induction false} SelectAscending<T>(lt: Order, key: T -> string, other: T -> string, xs: seq<T>, k: string)
    requires Ascending(lt, other, xs)
    ensures Ascending(lt, other, Select(key, xs, k))
  {
    if xs != [] {
      SelectAscending(lt, key, other, xs[1..], k);
      var rest := Select(key, xs[1..], k);
      forall j | 0 <= j < |rest| ensures !lt(other(rest[j]), other(xs[0])) {
        SelectMembers(key, xs[1..], k, rest[j]);
        var m :| 0 <= m < |xs[1..]| && xs[1..][m] == rest[j];
        assert rest[j] == xs[m + 1];
      }
    }
  }

  // ------------------------------------------------------------------ candidates

  lemma {:induction false} CandidatesOfSnoc(loc: Locale, capability: string, v: Inventory, tools: seq<Tool>, t: Tool)
    ensures CandidatesOf(loc, capability, v, tools + [t])
            == CandidatesOf(loc, capability, v, tools) + [Candidate(loc, capability, v, t)]
  {
    if tools == [] {
      assert [t] == [] + [t];
      assert [t][1..] == [];
    } else {
      assert (tools + [t])[1..] == tools[1..] + [t];
      CandidatesOfSnoc(loc, capability, v, tools[1..], t);
    }
  }

  lemma CandidatesSnoc(loc: Locale, grouping: map<string, string>, inventories: seq<Inventory>, v: Inventory)
    ensures Candidates(loc, grouping, inventories + [v]) == Candidates(loc, grouping, inventories)
            + CandidatesOf(loc, CapabilityFor(grouping, v.namespace), v, SortBy(loc.lt, ToolNameOf, v.tools))
  {
    CandidatesConcat(loc, grouping, inventories, [v]);
    assert [v][1..] == [];
  }

  lemma CandidatesNext(loc: Locale, grouping: map<string, string>, inventories: seq<Inventory>, n: nat)
    requires n < |inventories|
    ensures var v := inventories[n];
            Candidates(loc, grouping, inventories[..n + 1]) == Candidates(loc, grouping, inventories[..n])
            + CandidatesOf(loc, CapabilityFor(grouping, v.namespace), v, SortBy(loc.lt, ToolNameOf, v.tools))
  {
    var init, v := inventories[..n], inventories[n];
    assert inventories[..n + 1] == init + [v];
    CandidatesSnoc(loc, grouping, init, v);
  }

  /** The inner loop: the tools of one inventory. */
  method InventoryCandidates(loc: Locale, capability: string, inventory: Inventory, sortedTools: seq<Tool>)
    returns (candidates: seq<Route>)
    ensures candidates == CandidatesOf(loc, capability, inventory, sortedTools)
  {
    candidates := [];
    var m := 0;
    while m < |sortedTools|
      invariant m <= |sortedTools| && candidates == CandidatesOf(loc, capability, inventory, sortedTools[..m])
    {
      var tool := sortedTools[m];
      CandidatesOfSnoc(loc, capability, inventory, sortedTools[..m], tool);
      assert sortedTools[..m + 1] == sortedTools[..m] + [tool];
      var baseAction := ToActionToken(loc.lower, tool.name);
      if baseAction == DESCRIBE_ACTION || baseAction == ToActionToken(loc.lower, DESCRIBE_ACTION) {
        baseAction := RESERVED_ACTION;
      }
      candidates := candidates
        + [Route(capability, baseAction, baseAction, inventory.namespace, inventory.title, tool.name,
                                        Qualify(inventory.namespace, tool.name), 1, [], tool.detail)];
      m := m + 1;
    }
    assert sortedTools[..m] == sortedTools;
  }

  method BuildCandidates(loc: Locale, grouping: map<string, string>, inventories: seq<Inventory>)
    returns (candidates: seq<Route>)
    ensures candidates == Candidates(loc, grouping, inventories)
  {
    candidates := [];
    var n := 0;
    while n < |inventories|
      invariant n <= |inventories| && candidates == Candidates(loc, grouping, inventories[..n])
    {
      var inventory := inventories[n];
      CandidatesNext(loc, grouping, inventories, n);
      var capability := if inventory.namespace in grouping then grouping[inventory.namespace] else "general";
      var here := InventoryCandidates(loc, capability, inventory, SortBy(loc.lt, ToolNameOf, inventory.tools));
      candidates := candidates + here;
      n := n + 1;
    }
    assert inventories[..n] == inventories;
  }

  // ------------------------------------------------------------------ one collision group

  /** The Map of aliases, for the first n records. */
  ghost predicate Aliases(records: seq<Route>, n: nat, legacy: map<string, seq<string>>) {
    n <= |records| && forall q :: q in legacy <==> LastIndex(records[..n], q) >= 0
  }

  ghost predicate AliasesRight(records: seq<Route>, n: nat, legacy: map<string, seq<string>>) {
    n <= |records| && forall q :: q in legacy ==> legacy[q] == Legacy(records[..n], q)
  }

  method LegacyActions(records: seq<Route>) returns (legacy: map<string, seq<string>>)
    ensures forall r :: r in records ==>
              r.qualifiedName in legacy && legacy[r.qualifiedName] == Legacy(records, r.qualifiedName)
  {
    legacy := map[];
    var index := 0;
    while index < |records|
      invariant Aliases(records, index, legacy) && AliasesRight(records, index, legacy)
    {
      LegacyStep(records, index);
      var record := records[index];
      legacy := legacy[record.qualifiedName := if index == 0 then [] else [Numbered(record.baseAction, index + 1)]];
      index := index + 1;
    }
    assert records[..index] == records;
    forall r | r in records ensures LastIndex(records, r.qualifiedName) >= 0 {
      LastIndexFound(records, r);
    }
  }

  lemma LegacyStep(records: seq<Route>, n: nat)
    requires n < |records|
    ensures var q := records[n].qualifiedName;
            && LastIndex(records[..n + 1], q) == n
            && Legacy(records[..n + 1], q) == (if n == 0 then [] else [Numbered(records[n].baseAction, n + 1)])
    ensures forall p :: p != records[n].qualifiedName ==>
              LastIndex(records[..n + 1], p) == LastIndex(records[..n], p)
              && Legacy(records[..n + 1], p) == Legacy(records[..n], p)
  {
    assert records[..n + 1][..n] == records[..n];
    assert records[..n + 1][n] == records[n];
  }

  lemma {:induction false} LastIndexFound(records: seq<Route>, r: Route)
    requires r in records
    ensures LastIndex(records, r.qualifiedName) >= 0
  {
    if records[|records| - 1].qualifiedName != r.qualifiedName {
      LastIndexFound(records[..|records| - 1], r);
    }
  }

  lemma {:induction false} EmitIdsSnoc(taken: set<string>, base: string, count: nat, index: nat)
    requires index <= count
    ensures var ids := EmitIds(taken, base, count, index);
            EmitIds(taken, base, count + 1, index) == ids + [Allocate(taken + Elements(ids), base, count)]
    decreases count - index
  {
    if index == count {
      assert taken + Elements([]) == taken;
    } else {
      var id := Allocate(taken, base, index);
      var rest := EmitIds(taken + {id}, base, count, index + 1);
      EmitIdsSnoc(taken + {id}, base, count, index + 1);
      OneMoreElement(taken, id, rest);
    }
  }

  lemma OneMoreElement(taken: set<string>, id: string, rest: seq<string>)
    ensures taken + Elements([id] + rest) == taken + {id} + Elements(rest)
  {
    assert Elements([id] + rest) == {id} + Elements(rest);
  }

  lemma InstanceStep(records: seq<Route>, mine: seq<Route>, actionBase: string, taken: set<string>, n: nat)
    requires n < |mine|
    ensures var ids := EmitIds(taken, actionBase, n, 0);
            var more := EmitIds(taken, actionBase, n + 1, 0);
            var id := Allocate(taken + Elements(ids), actionBase, n);
            && Elements(more) == Elements(ids) + {id}
            && Stamp(records, mine[..n + 1], more) == Stamp(records, mine[..n], ids)
               + [mine[n].(action := id, collisionGroupSize := |records|,
                           legacyActions := Legacy(records, mine[n].qualifiedName))]
  {
    var ids := EmitIds(taken, actionBase, n, 0);
    EmitIdsSnoc(taken, actionBase, n, 0);
    StampSnoc(records, mine[..n], ids, mine[n], Allocate(taken + Elements(ids), actionBase, n));
    assert mine[..n + 1] == mine[..n] + [mine[n]];
  }

  lemma StampSnoc(records: seq<Route>, mine: seq<Route>, ids: seq<string>, r: Route, id: string)
    requires |ids| == |mine|
    ensures Stamp(records, mine + [r], ids + [id]) == Stamp(records, mine, ids)
            + [r.(action := id, collisionGroupSize := |records|, legacyActions := Legacy(records, r.qualifiedName))]
  {
  }

  /** The inner loop: the routes of one instance. */
  method EmitInstance(
      records: seq<Route>, mine: seq<Route>, actionBase: string, legacy: map<string, seq<string>>, taken: set<string>)
    returns (routes: seq<Route>, emitted: set<string>)
    requires forall r :: r in mine ==>
               r.qualifiedName in legacy && legacy[r.qualifiedName] == Legacy(records, r.qualifiedName)
    ensures var ids := EmitIds(taken, actionBase, |mine|, 0);
            routes == Stamp(records, mine, ids) && emitted == taken + Elements(ids)
  {
    routes, emitted := [], taken;
    var index := 0;
    while index < |mine|
      invariant index <= |mine|
      invariant routes == Stamp(records, mine[..index], EmitIds(taken, actionBase, index, 0))
      invariant emitted == taken + Elements(EmitIds(taken, actionBase, index, 0))
    {
      InstanceStep(records, mine, actionBase, taken, index);
      var record := mine[index];
      assert record in mine;
      var id, after, _ := AllocateUniqueActionId(emitted, actionBase, index);
      emitted := after;
      routes := routes + [record.(action := id, collisionGroupSize := |records|,
                                  legacyActions := legacy[record.qualifiedName])];
      index := index + 1;
    }
    assert mine[..index] == mine;
  }

  /** What Emit gives from the i-th instance on, after what was emitted for the earlier ones. */
  lemma EmitUnfold(loc: Locale, records: seq<Route>, ks: seq<string>, i: nat, taken: set<string>, done: seq<Route>)
    requires i < |ks| && records != []
    ensures var mine := Select(InstanceOf, records, ks[i]);
            var ids := EmitIds(taken, Joined(records[0].baseAction, InstanceToken(loc, ks, i)), |mine|, 0);
            done + Emit(loc, records, ks, i, taken)
            == done + Stamp(records, mine, ids) + Emit(loc, records, ks, i + 1, taken + Elements(ids))
  {
    var mine := Select(InstanceOf, records, ks[i]);
    var ids := EmitIds(taken, Joined(records[0].baseAction, InstanceToken(loc, ks, i)), |mine|, 0);
    AppendAssociates(done, Stamp(records, mine, ids), Emit(loc, records, ks, i + 1, taken + Elements(ids)));
  }

  /** The records of one instance, as grouping by instance gives them, sorted once more. */
  lemma InstanceRecords(
      loc: Locale, records: seq<Route>, order: seq<string>, byInstance: map<string, seq<Route>>, k: string)
    requires Ascending(loc.lt, QualifiedOf, records) && Grouped(InstanceOf, records, order, byInstance) && k in order
    ensures k in byInstance && SortBy(loc.lt, QualifiedOf, byInstance[k]) == Select(InstanceOf, records, k)
  {
    SelectAscending(loc.lt, InstanceOf, QualifiedOf, records, k);
    SortedStays(loc.lt, QualifiedOf, Select(InstanceOf, records, k));
  }

  method EmitCollisions(loc: Locale, records: seq<Route>) returns (routes: seq<Route>)
    requires StrictTotal(loc.lt) && |records| > 1 && Ascending(loc.lt, QualifiedOf, records)
    ensures routes == ResolveGroup(loc, records)
  {
    var legacy := LegacyActions(records);
    var instanceTokens := ResolveInstanceTokens(loc, records);
    var order, byInstance := GroupBy(InstanceOf, records);
    var ks := SortBy(loc.lt, Self, order);
    SortContents(loc.lt, Self, order);
    MultisetMembers(order, ks);
    var emitted := {};
    routes := [];
    var i := 0;
    while i < |ks|
      invariant i <= |ks| && routes + Emit(loc, records, ks, i, emitted) == ResolveGroup(loc, records)
    {
      InstanceRecords(loc, records, order, byInstance, ks[i]);
      assert HasInstanceToken(loc, records, instanceTokens, i);
      var mine := SortBy(loc.lt, QualifiedOf, byInstance[ks[i]]);
      forall r | r in mine ensures r in records {
        SelectMembers(InstanceOf, records, ks[i], r);
      }
      EmitUnfold(loc, records, ks, i, emitted, routes);
      var here, after := EmitInstance(records, mine, Joined(records[0].baseAction, instanceTokens[ks[i]]), legacy,
                                      emitted);
      routes := routes + here;
      emitted := after;
      i := i + 1;
    }
  }

  // ------------------------------------------------------------------ all groups

  ghost function GroupRoutes(loc: Locale, candidates: seq<Route>, key: string): seq<Route> {
    var records := GroupRecords(loc, candidates, key);
    if records == [] then [] else ResolveGroup(loc, records)
  }

  lemma ResolveGroupsHead(loc: Locale, candidates: seq<Route>, key: string, keys: seq<string>)
    ensures ResolveGroups(loc, candidates, [key] + keys)
            == GroupRoutes(loc, candidates, key) + ResolveGroups(loc, candidates, keys)
  {
    assert ([key] + keys)[1..] == keys;
  }

  lemma {:induction false} ResolveGroupsSnoc(loc: Locale, candidates: seq<Route>, keys: seq<string>, key: string)
    ensures ResolveGroups(loc, candidates, keys + [key])
            == ResolveGroups(loc, candidates, keys) + GroupRoutes(loc, candidates, key)
  {
    if keys == [] {
      ResolveGroupsHead(loc, candidates, key, []);
      assert [] + [key] == [key] + [];
    } else {
      var rest := keys[1..];
      ResolveGroupsSnoc(loc, candidates, rest, key);
      ResolveGroupsHead(loc, candidates, keys[0], rest);
      ResolveGroupsHead(loc, candidates, keys[0], rest + [key]);
      assert keys == [keys[0]] + rest && keys + [key] == [keys[0]] + (rest + [key]);
      AppendAssociates(GroupRoutes(loc, candidates, keys[0]), ResolveGroups(loc, candidates, rest),
                       GroupRoutes(loc, candidates, key));
    }
  }

  lemma ResolveGroupsNext(loc: Locale, candidates: seq<Route>, keys: seq<string>, n: nat)
    requires n < |keys|
    ensures ResolveGroups(loc, candidates, keys[..n + 1])
            == ResolveGroups(loc, candidates, keys[..n]) + GroupRoutes(loc, candidates, keys[n])
  {
    var init, key := keys[..n], keys[n];
    assert keys[..n + 1] == init + [key];
    ResolveGroupsSnoc(loc, candidates, init, key);
  }

  /** One group: a single record keeps its base action, several are told apart. */
  method ResolveRecords(loc: Locale, records: seq<Route>) returns (routes: seq<Route>)
    requires StrictTotal(loc.lt) && Ascending(loc.lt, QualifiedOf, records)
    ensures routes == if records == [] then [] else ResolveGroup(loc, records)
  {
    if |records| == 1 {
      var record := records[0];
      return [record.(action := record.baseAction, collisionGroupSize := 1, legacyActions := [])];
    }
    routes := [];
    if |records| > 1 {
      routes := EmitCollisions(loc, records);
    }
  }

  method ResolveCollisions(loc: Locale, candidates: seq<Route>) returns (resolved: seq<Route>)
    requires StrictTotal(loc.lt)
    ensures resolved == Resolved(loc, candidates)
  {
    var order, byCapabilityAction := GroupBy(GroupOf, candidates);
    var sortedKeys := SortBy(loc.lt, Self, order);
    SortContents(loc.lt, Self, order);
    MultisetMembers(order, sortedKeys);
    resolved := [];
    var n := 0;
    while n < |sortedKeys|
      invariant n <= |sortedKeys| && resolved == ResolveGroups(loc, candidates, sortedKeys[..n])
    {
      var key := sortedKeys[n];
      var records := SortBy(loc.lt, QualifiedOf, byCapabilityAction[key]);
      SortAscending(loc.lt, QualifiedOf, byCapabilityAction[key]);
      assert records == GroupRecords(loc, candidates, key);
      ResolveGroupsNext(loc, candidates, sortedKeys, n);
      var here := ResolveRecords(loc, records);
      resolved := resolved + here;
      n := n + 1;
    }
    assert sortedKeys[..n] == sortedKeys;
  }

  // ------------------------------------------------------------------ routers

  function RouterName(r: Router): string { r.capability }

  lemma {:induction false} RoutersSnoc(loc: Locale, routes: seq<Route>, capabilities: seq<string>, c: string)
    ensures RoutersFor(loc, routes, capabilities + [c])
            == RoutersFor(loc, routes, capabilities)
               + [Router(c, SortBy(loc.lt, ActionOf, Select(CapabilityOf, routes, c)))]
  {
    if capabilities == [] {
      assert [c] == [] + [c];
      assert [c][1..] == [];
    } else {
      assert (capabilities + [c])[1..] == capabilities[1..] + [c];
      RoutersSnoc(loc, routes, capabilities[1..], c);
    }
  }

  lemma RoutersNext(loc: Locale, routes: seq<Route>, capabilities: seq<string>, n: nat)
    requires n < |capabilities|
    ensures RoutersFor(loc, routes, capabilities[..n + 1]) == RoutersFor(loc, routes, capabilities[..n])
            + [Router(capabilities[n], SortBy(loc.lt, ActionOf, Select(CapabilityOf, routes, capabilities[n])))]
  {
    RoutersSnoc(loc, routes, capabilities[..n], capabilities[n]);
    assert capabilities[..n + 1] == capabilities[..n] + [capabilities[n]];
  }

  lemma {:induction false} InsertRouter(loc: Locale, routes: seq<Route>, c: string, capabilities: seq<string>)
    ensures Insert(loc.lt, RouterName, Router(c, SortBy(loc.lt, ActionOf, Select(CapabilityOf, routes, c))),
                   RoutersFor(loc, routes, capabilities))
            == RoutersFor(loc, routes, Insert(loc.lt, Self, c, capabilities))
  {
    var first := Router(c, SortBy(loc.lt, ActionOf, Select(CapabilityOf, routes, c)));
    var routers := RoutersFor(loc, routes, capabilities);
    if capabilities == [] {
      assert [c][1..] == [];
    } else {
      assert routers[0].capability == capabilities[0];
      assert routers[1..] == RoutersFor(loc, routes, capabilities[1..]);
      if loc.lt(capabilities[0], c) {
        InsertRouter(loc, routes, c, capabilities[1..]);
        var more := Insert(loc.lt, Self, c, capabilities[1..]);
        assert ([capabilities[0]] + more)[1..] == more;
      } else {
        assert ([c] + capabilities)[1..] == capabilities;
      }
    }
  }

  /** Sorting the routers by capability is routing the sorted capabilities. */
  lemma {:induction false} SortRouters(loc: Locale, routes: seq<Route>, capabilities: seq<string>)
    ensures SortBy(loc.lt, RouterName, RoutersFor(loc, routes, capabilities))
            == RoutersFor(loc, routes, SortBy(loc.lt, Self, capabilities))
  {
    if capabilities != [] {
      SortRouters(loc, routes, capabilities[1..]);
      InsertRouter(loc, routes, capabilities[0], SortBy(loc.lt, Self, capabilities[1..]));
      assert RoutersFor(loc, routes, capabilities)[1..] == RoutersFor(loc, routes, capabilities[1..]);
    }
  }

  /** The routers in order of first appearance, then sorted. */
  method GroupByCapability(loc: Locale, resolved: seq<Route>) returns (routers: seq<Router>)
    ensures routers == Routers(loc, resolved)
  {
    var order, byCapability := GroupBy(CapabilityOf, resolved);
    routers := [];
    var n := 0;
    while n < |order|
      invariant n <= |order| && routers == RoutersFor(loc, resolved, order[..n])
    {
      RoutersNext(loc, resolved, order, n);
      routers := routers + [Router(order[n], SortBy(loc.lt, ActionOf, byCapability[order[n]]))];
      n := n + 1;
    }
    assert order[..n] == order;
    SortRouters(loc, resolved, order);
    routers := SortBy(loc.lt, RouterName, routers);
  }

  method BuildCapabilityRouters(loc: Locale, grouping: map<string, string>, inventories: seq<Inventory>)
    returns (routers: seq<Router>)
    requires StrictTotal(loc.lt)
    ensures routers == BuildRouters(loc, grouping, inventories)
  {
    if |inventories| == 0 {
      NoRouters(loc, grouping);
      return [];
    }
    var candidates := BuildCandidates(loc, grouping, inventories);
    var resolved := ResolveCollisions(loc, candidates);
    routers := GroupByCapability(loc, resolved);
  }

  lemma NoRouters(loc: Locale, grouping: map<string, string>)
    ensures BuildRouters(loc, grouping, []) == []
  {
    assert Candidates(loc, grouping, []) == [];
    assert SortedKeys(loc.lt, GroupOf, []) == [];
    assert Resolved(loc, []) == [];
    assert SortedKeys(loc.lt, CapabilityOf, []) == [];
  }
}
