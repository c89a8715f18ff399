/** Within a capability no two routes share an action identifier, and none is the describe action. */
module RoutingIds {
  import opened Common
  import opened Sorting
  import opened Grouping
  import opened Tokens
  import opened ActionIds
  import opened Routing

  ghost predicate IsBase(b: string) {
    IsToken(b) || b == RESERVED_ACTION
  }

  lemma TokenAfterUnderscores(lower: string -> string, value: string, token: string)
    requires value == SEPARATOR + token && IsToken(token) && lower(value) == value
    ensures ToActionToken(lower, value) == token
  {
    assert value[1..] == "_" + token && value[1..][1..] == token;
    ReplaceNothing(token);
    assert ReplaceRuns(value[1..], true) == token;
    assert ReplaceRuns(value, false) == "_" + token;
    assert TrimFront("_" + token) == token by {
      assert ("_" + token)[1..] == token;
    }
    CollapseNothing(token);
  }

  lemma DescribeToken(lower: string -> string)
    requires lower(DESCRIBE_ACTION) == DESCRIBE_ACTION
    ensures ToActionToken(lower, DESCRIBE_ACTION) == "describe_actions"
  {
    TokenAfterUnderscores(lower, DESCRIBE_ACTION, "describe_actions");
  }

  /**
   * The base action of a tool is the token of its name, except that the token of the describe action gives way to a
   * name of its own.
   */
  lemma BaseActionExactly(lower: string -> string, name: string)
    requires lower("__describe_actions") == "__describe_actions"
    ensures var token := ToActionToken(lower, name);
            BaseAction(lower, name) == if token == "describe_actions" then "__describe_actions__tool" else token
  {
    DescribeToken(lower);
    TokenShape(lower, name);
  }

  lemma BaseActionShape(lower: string -> string, name: string)
    ensures IsBase(BaseAction(lower, name))
  {
    TokenShape(lower, name);
  }

  // ------------------------------------------------------------------ across groups

  /** The reserved name is the describe action, a separator and "tool". */
  lemma ReservedParts()
    ensures RESERVED_ACTION == Joined(DESCRIBE_ACTION, "tool")
    ensures RESERVED_ACTION[0] == '_'
  {
  }

  lemma ExtendsFirst(id: string, name: string)
    requires Extends(id, name) && name != ""
    ensures id != "" && id[0] == name[0] && |id| >= |name|
  {
    if id != name {
      var rest :| id == Joined(name, rest);
      JoinedParts(name, rest);
    }
  }

  /** Identifiers of different base actions never meet. */
  lemma BasesApart(a: string, x: string, b: string, y: string)
    requires IsBase(a) && IsBase(b) && a != b && Extends(x, a) && Extends(y, b)
    ensures x != y
  {
    ReservedParts();
    ExtendsFirst(x, a);
    ExtendsFirst(y, b);
    if IsToken(a) && IsToken(b) {
      if x != a && y != b {
        var s :| x == Joined(a, s);
        var t :| y == Joined(b, t);
        if x == y {
          JoinedUnique(a, s, b, t);
        }
      } else if x == a && y != b {
        var t :| y == Joined(b, t);
        TokenIsNotJoined(a, b, t);
      } else if x != a && y == b {
        var s :| x == Joined(a, s);
        TokenIsNotJoined(b, a, s);
      }
    }
  }

  lemma NeverDescribe(id: string, b: string)
    requires IsBase(b) && Extends(id, b)
    ensures id != DESCRIBE_ACTION
  {
    ReservedParts();
    ExtendsFirst(id, b);
    assert |RESERVED_ACTION| == 24 && |DESCRIBE_ACTION| == 18;
  }

  // ------------------------------------------------------------------ inside a group

  /** The stem that further attempts use still extends the base. */
  lemma AllocateExtendsBase(taken: set<string>, b: string, tail: string, index: nat)
    requires IsBase(b) && tail != "" && tail[0] != '_'
    ensures Extends(Allocate(taken, Joined(b, tail), index), b)
  {
    var actionBase := Joined(b, tail);
    if FirstChoice(actionBase, index) in taken {
      var (stem, start) := Retries(actionBase, index);
      var m := ProbeIsFree(taken, stem, start);
      StemExtends(b, tail);
      if stem == b {
        JoinedExtends(Numbered(b, m), b, Decimal(m));
      } else {
        var rest :| stem == Joined(b, rest);
        JoinedNests(b, rest, Decimal(m));
        JoinedExtends(Numbered(stem, m), b, Joined(rest, Decimal(m)));
      }
    } else if index == 0 {
      JoinedExtends(actionBase, b, tail);
    } else {
      JoinedNests(b, tail, Decimal(index + 1));
      JoinedExtends(Numbered(actionBase, index + 1), b, Joined(tail, Decimal(index + 1)));
    }
  }

  lemma StemExtends(b: string, tail: string)
    requires IsBase(b) && tail != "" && tail[0] != '_'
    ensures SuffixMatch(Joined(b, tail)).Some? ==> Extends(SuffixMatch(Joined(b, tail)).value.0, b)
  {
    var s := Joined(b, tail);
    JoinedParts(b, tail);
    var k := DigitsStart(s);
    if SuffixMatch(s).Some? {
      var stem := s[..k - 2];
      assert s[|b| + 1] == '_';
      assert s[|b| + 2] == tail[0];
      if k == |b| + 2 {
        assert stem == b;
      } else {
        assert k - 1 != |b| + 2;
        assert k - 2 >= |b| + 2;
        assert stem == Joined(b, s[|b| + 2..k - 2]);
        JoinedExtends(stem, b, s[|b| + 2..k - 2]);
      }
    }
  }

  lemma {:induction false} IdsFree(taken: set<string>, base: string, count: nat, index: nat)
    ensures var ids := EmitIds(taken, base, count, index);
            NoDuplicates(ids) && forall id :: id in ids ==> id !in taken
    decreases if index < count then count - index else 0
  {
    if index < count {
      var id := Allocate(taken, base, index);
      AllocateIsFree(taken, base, index);
      IdsFree(taken + {id}, base, count, index + 1);
    }
  }

  lemma {:induction false} IdsExtend(taken: set<string>, b: string, tail: string, count: nat, index: nat)
    requires IsBase(b) && tail != "" && tail[0] != '_'
    ensures forall id :: id in EmitIds(taken, Joined(b, tail), count, index) ==> Extends(id, b)
    decreases if index < count then count - index else 0
  {
    if index < count {
      var id := Allocate(taken, Joined(b, tail), index);
      AllocateExtendsBase(taken, b, tail, index);
      IdsExtend(taken + {id}, b, tail, count, index + 1);
    }
  }

  lemma InstanceTokenShape(loc: Locale, ks: seq<string>, i: nat)
    requires i < |ks|
    ensures InstanceToken(loc, ks, i) != "" && InstanceToken(loc, ks, i)[0] != '_'
  {
    TokenShape(loc.lower, ks[i]);
  }

  /** A route whose action is its base action or extends it. */
  ghost predicate WellNamed(r: Route) {
    IsBase(r.baseAction) && Extends(r.action, r.baseAction)
  }

  /** All records of a group carry the same base action. */
  ghost predicate OneGroup(records: seq<Route>, b: string) {
    forall x :: x in records ==> x.baseAction == b
  }

  lemma {:induction false} EmitDistinct(loc: Locale, records: seq<Route>, ks: seq<string>, i: nat, taken: set<string>)
    requires i <= |ks| && records != []
    ensures var routes := Emit(loc, records, ks, i, taken);
            DistinctKeys(ActionOf, routes) && forall r :: r in routes ==> r.action !in taken
    decreases |ks| - i
  {
    if i < |ks| {
      var mine := Select(InstanceOf, records, ks[i]);
      var base := Joined(records[0].baseAction, InstanceToken(loc, ks, i));
      var ids := EmitIds(taken, base, |mine|, 0);
      IdsFree(taken, base, |mine|, 0);
      EmitDistinct(loc, records, ks, i + 1, taken + Elements(ids));
      var here, later := Stamp(records, mine, ids), Emit(loc, records, ks, i + 1, taken + Elements(ids));
      forall r | r in here ensures r.action in ids {
        var j :| 0 <= j < |here| && here[j] == r;
        assert r.action == ids[j];
      }
      assert DistinctKeys(ActionOf, here);
      ConcatDistinct(ActionOf, here, later);
    }
  }

  lemma {:induction false} EmitWellNamed(
      loc: Locale, records: seq<Route>, ks: seq<string>, i: nat, taken: set<string>, r: Route)
    requires i <= |ks| && records != [] && IsBase(records[0].baseAction) && OneGroup(records, records[0].baseAction)
    requires r in Emit(loc, records, ks, i, taken)
    ensures WellNamed(r) && r.baseAction == records[0].baseAction
    decreases |ks| - i
  {
    var b := records[0].baseAction;
    var mine := Select(InstanceOf, records, ks[i]);
    var tail := InstanceToken(loc, ks, i);
    var ids := EmitIds(taken, Joined(b, tail), |mine|, 0);
    var here := Stamp(records, mine, ids);
    if r in here {
      var j :| 0 <= j < |here| && here[j] == r;
      InstanceTokenShape(loc, ks, i);
      IdsExtend(taken, b, tail, |mine|, 0);
      assert ids[j] in ids;
      SelectMembers(InstanceOf, records, ks[i], mine[j]);
    } else {
      EmitWellNamed(loc, records, ks, i + 1, taken + Elements(ids), r);
    }
  }

  // ------------------------------------------------------------------ origins

  /** A route as it was before collisions were resolved. */
  ghost predicate IsCandidate(r: Route) {
    Single(r) == r && IsBase(r.baseAction) && r.qualifiedName == Qualify(r.instanceKey, r.toolName)
  }

  ghost predicate AllCandidates(routes: seq<Route>) {
    forall r :: r in routes ==> IsCandidate(r)
  }

  /** An emitted route is one of the records, renamed; its aliases are those of the record. */
  lemma {:induction false} EmitOrigin(
      loc: Locale, records: seq<Route>, ks: seq<string>, i: nat, taken: set<string>, r: Route)
    requires i <= |ks| && records != [] && AllCandidates(records)
    requires r in Emit(loc, records, ks, i, taken)
    ensures Single(r) in records
    ensures r.collisionGroupSize == |records| && r.legacyActions == Legacy(records, r.qualifiedName)
    decreases |ks| - i
  {
    var mine := Select(InstanceOf, records, ks[i]);
    var ids := EmitIds(taken, Joined(records[0].baseAction, InstanceToken(loc, ks, i)), |mine|, 0);
    var here := Stamp(records, mine, ids);
    if r in here {
      var j :| 0 <= j < |here| && here[j] == r;
      SelectMembers(InstanceOf, records, ks[i], mine[j]);
      assert Single(r) == Single(mine[j]) == mine[j];
    } else {
      EmitOrigin(loc, records, ks, i + 1, taken + Elements(ids), r);
    }
  }

  lemma ResolveGroupOrigin(loc: Locale, records: seq<Route>, r: Route)
    requires records != [] && AllCandidates(records) && r in ResolveGroup(loc, records)
    ensures Single(r) in records
  {
    assert records[0] in records;
    if |records| > 1 {
      EmitOrigin(loc, records, SortedKeys(loc.lt, InstanceOf, records), 0, {}, r);
    }
  }

  lemma ResolveGroupNames(loc: Locale, records: seq<Route>)
    requires records != [] && AllCandidates(records) && OneGroup(records, records[0].baseAction)
    ensures DistinctKeys(ActionOf, ResolveGroup(loc, records))
    ensures forall r :: r in ResolveGroup(loc, records) ==> WellNamed(r)
  {
    assert records[0] in records;
    if |records| > 1 {
      var ks := SortedKeys(loc.lt, InstanceOf, records);
      EmitDistinct(loc, records, ks, 0, {});
      forall r | r in Emit(loc, records, ks, 0, {}) ensures WellNamed(r) {
        EmitWellNamed(loc, records, ks, 0, {}, r);
      }
    }
  }

  // ------------------------------------------------------------------ the groups of a table

  lemma BaseHasNoColon(b: string, i: nat)
    requires IsBase(b) && i < |b|
    ensures b[i] != ':'
  {
    assert forall k :: 0 <= k < |RESERVED_ACTION| ==> RESERVED_ACTION[k] != ':';
  }

  /** The grouping key determines capability and base action. */
  lemma GroupKeyParts(x: Route, y: Route)
    requires IsBase(x.baseAction) && IsBase(y.baseAction) && GroupOf(x) == GroupOf(y)
    ensures x.capability == y.capability && x.baseAction == y.baseAction
  {
    LastColon(x.capability, x.baseAction);
    LastColon(y.capability, y.baseAction);
    assert |x.capability| == |y.capability|;
    var m := |x.capability|;
    assert GroupOf(x)[..m] == x.capability && GroupOf(y)[..m] == y.capability;
    assert GroupOf(x)[m + 1..] == x.baseAction && GroupOf(y)[m + 1..] == y.baseAction;
  }

  /** The colon that joins the two parts of a grouping key is its last one. */
  lemma LastColon(capability: string, base: string)
    requires IsBase(base)
    ensures var s := capability + ":" + base;
            s[|capability|] == ':' && forall j :: |capability| < j < |s| ==> s[j] != ':'
  {
    var s := capability + ":" + base;
    forall j | |capability| < j < |s| ensures s[j] != ':' {
      BaseHasNoColon(base, j - |capability| - 1);
    }
  }

  lemma GroupRecordsShape(loc: Locale, candidates: seq<Route>, key: string)
    requires AllCandidates(candidates)
    ensures var records := GroupRecords(loc, candidates, key);
            && AllCandidates(records)
            && (forall r :: r in records <==> r in candidates && GroupOf(r) == key)
            && (forall r, s :: r in records && s in records ==>
                  r.capability == s.capability && r.baseAction == s.baseAction)
  {
    var chosen := Select(GroupOf, candidates, key);
    var records := GroupRecords(loc, candidates, key);
    SortContents(loc.lt, QualifiedOf, chosen);
    MultisetMembers(chosen, records);
    forall r ensures r in records <==> r in candidates && GroupOf(r) == key {
      SelectMembers(GroupOf, candidates, key, r);
    }
    forall r, s | r in records && s in records ensures r.capability == s.capability && r.baseAction == s.baseAction {
      GroupKeyParts(r, s);
    }
  }

  /** A resolved route is a candidate, renamed, of one of the groups. */
  lemma {:induction false} ResolvedOrigin(loc: Locale, candidates: seq<Route>, keys: seq<string>, r: Route)
    requires AllCandidates(candidates) && r in ResolveGroups(loc, candidates, keys)
    ensures WellNamed(r) && GroupOf(r) in keys && Single(r) in candidates
  {
    var records := GroupRecords(loc, candidates, keys[0]);
    GroupRecordsShape(loc, candidates, keys[0]);
    if records != [] && r in ResolveGroup(loc, records) {
      ResolveGroupOrigin(loc, records, r);
      ResolveGroupNames(loc, records);
      assert GroupOf(r) == GroupOf(Single(r));
    } else {
      ResolvedOrigin(loc, candidates, keys[1..], r);
    }
  }

  lemma {:induction false} SelectConcat(key: Route -> string, a: seq<Route>, b: seq<Route>, k: string)
    ensures Select(key, a + b, k) == Select(key, a, k) + Select(key, b, k)
  {
    if a == [] {
      assert a + b == b;
    } else {
      assert (a + b)[1..] == a[1..] + b;
      SelectConcat(key, a[1..], b, k);
    }
  }

  lemma {:induction false} ResolvedDistinct(loc: Locale, candidates: seq<Route>, keys: seq<string>, capability: string)
    requires AllCandidates(candidates) && DistinctKeys(Self, keys)
    ensures DistinctKeys(ActionOf, Select(CapabilityOf, ResolveGroups(loc, candidates, keys), capability))
  {
    if keys != [] {
      var records := GroupRecords(loc, candidates, keys[0]);
      var here := if records == [] then [] else ResolveGroup(loc, records);
      var later := ResolveGroups(loc, candidates, keys[1..]);
      GroupRecordsShape(loc, candidates, keys[0]);
      if records != [] {
        ResolveGroupNames(loc, records);
        SelectDistinct(CapabilityOf, ActionOf, here, capability);
      }
      ResolvedDistinct(loc, candidates, keys[1..], capability);
      SelectConcat(CapabilityOf, here, later, capability);
      var a, b := Select(CapabilityOf, here, capability), Select(CapabilityOf, later, capability);
      forall x, y | x in a && y in b ensures x.action != y.action {
        SelectMembers(CapabilityOf, here, capability, x);
        SelectMembers(CapabilityOf, later, capability, y);
        ResolveGroupOrigin(loc, records, x);
        ResolvedOrigin(loc, candidates, keys[1..], y);
        var k :| 0 <= k < |keys[1..]| && keys[1..][k] == GroupOf(y);
        assert Self(keys[0]) != Self(keys[k + 1]);
        assert GroupOf(x) == GroupOf(Single(x)) == keys[0];
        BasesApart(x.baseAction, x.action, y.baseAction, y.action);
      }
      ConcatDistinct(ActionOf, a, b);
    }
  }

  // ------------------------------------------------------------------ candidates of inventories

  lemma {:induction false} CandidatesOfShape(loc: Locale, capability: string, inventory: Inventory, tools: seq<Tool>)
    ensures AllCandidates(CandidatesOf(loc, capability, inventory, tools))
  {
    if tools != [] {
      BaseActionShape(loc.lower, tools[0].name);
      CandidatesOfShape(loc, capability, inventory, tools[1..]);
    }
  }

  lemma {:induction false} CandidatesShape(loc: Locale, grouping: map<string, string>, inventories: seq<Inventory>)
    ensures AllCandidates(Candidates(loc, grouping, inventories))
  {
    if inventories != [] {
      var first := inventories[0];
      CandidatesOfShape(loc, CapabilityFor(grouping, first.namespace), first, SortBy(loc.lt, ToolNameOf, first.tools));
      CandidatesShape(loc, grouping, inventories[1..]);
    }
  }

  lemma {:induction false} RouterOf(loc: Locale, routes: seq<Route>, capabilities: seq<string>, i: nat)
    requires i < |RoutersFor(loc, routes, capabilities)|
    ensures |RoutersFor(loc, routes, capabilities)| == |capabilities|
    ensures RoutersFor(loc, routes, capabilities)[i] ==
            Router(capabilities[i], SortBy(loc.lt, ActionOf, Select(CapabilityOf, routes, capabilities[i])))
  {
    if i > 0 {
      RouterOf(loc, routes, capabilities[1..], i - 1);
    } else if |capabilities| > 1 {
      RouterOf(loc, routes, capabilities[1..], 0);
    }
  }

  /**
   * For any inventories at all: within one capability the action identifiers are pairwise distinct,
   * none is the describe action, and each is its base action or extends it.
   */
  lemma ActionIdsUnique(loc: Locale, grouping: map<string, string>, inventories: seq<Inventory>, i: nat)
    requires StrictTotal(loc.lt)
    requires i < |BuildRouters(loc, grouping, inventories)|
    ensures var actions := BuildRouters(loc, grouping, inventories)[i].actions;
            && DistinctKeys(ActionOf, actions)
            && forall r :: r in actions ==> r.action != DESCRIBE_ACTION && WellNamed(r)
  {
    var candidates := Candidates(loc, grouping, inventories);
    var keys := SortedKeys(loc.lt, GroupOf, candidates);
    var routes := Resolved(loc, candidates);
    var capabilities := SortedKeys(loc.lt, CapabilityOf, routes);
    CandidatesShape(loc, grouping, inventories);
    SortedKeysShape(loc.lt, GroupOf, candidates);
    RouterOf(loc, routes, capabilities, i);
    var chosen := Select(CapabilityOf, routes, capabilities[i]);
    var actions := SortBy(loc.lt, ActionOf, chosen);
    ResolvedDistinct(loc, candidates, keys, capabilities[i]);
    SortContents(loc.lt, ActionOf, chosen);
    PermutedDistinct(ActionOf, chosen, actions);
    MultisetMembers(chosen, actions);
    forall r | r in actions ensures r.action != DESCRIBE_ACTION && WellNamed(r) {
      SelectMembers(CapabilityOf, routes, capabilities[i], r);
      ResolvedOrigin(loc, candidates, keys, r);
      NeverDescribe(r.action, r.baseAction);
    }
  }
}
