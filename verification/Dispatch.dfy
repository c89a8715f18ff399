/** Which route a requested action selects (src/server/index.ts:441-590), and that listed names select their own. */
module Dispatch {
  import opened Common
  import opened Sorting
  import opened Grouping
  import opened Tokens
  import opened ActionIds
  import opened Routing
  import opened RoutingIds
  import opened RoutingTable
  import opened GroupNames
  import opened ToolNames

  datatype Outcome =
    | MissingAction
    | Described(actions: seq<string>)
    | Disambiguate(candidates: seq<string>)
    | Selected(route: Route, policyAction: string)
    | UnknownAction(available: seq<string>)

  /** The routes that the policy lets a caller see. */
  function VisibleRoutes(actions: seq<Route>, visible: string -> bool): seq<Route> {
    if actions == [] then []
    else if visible(actions[0].action) then [actions[0]] + VisibleRoutes(actions[1..], visible)
    else VisibleRoutes(actions[1..], visible)
  }

  function Answers(r: Route, action: string): bool {
    r.action == action || action in r.legacyActions
  }

  /** The first route with the requested identifier or alias. */
  function ExactRoute(actions: seq<Route>, action: string): Option<Route> {
    if actions == [] then None
    else if Answers(actions[0], action) then Some(actions[0])
    else ExactRoute(actions[1..], action)
  }

  function BaseOf(r: Route): string { r.baseAction }

  function Ambiguous(lt: Order, shown: seq<Route>, action: string): seq<string> {
    SortBy(lt, Self, Keys(ActionOf, Select(BaseOf, shown, action)))
  }

  function Choose(lt: Order, actions: seq<Route>, visible: string -> bool, action: string): Outcome {
    var shown := VisibleRoutes(actions, visible);
    var names := SortBy(lt, Self, Keys(ActionOf, shown));
    if |action| == 0 then MissingAction
    else if action == DESCRIBE_ACTION then Described(names)
    else
      var exact := ExactRoute(actions, action);
      var ambiguous := Ambiguous(lt, shown, action);
      if |ambiguous| > 1 then Disambiguate(ambiguous)
      else
        match exact
        case Some(r) => Selected(r, action)
        case None =>
          var fallback := Select(BaseOf, shown, action);
          if |ambiguous| == 1 && fallback != [] then Selected(fallback[0], fallback[0].action) else UnknownAction(names)
  }

  // ------------------------------------------------------------------ lists of routes

  lemma {:induction false} VisibleMembers(actions: seq<Route>, visible: string -> bool, r: Route)
    ensures r in VisibleRoutes(actions, visible) <==> r in actions && visible(r.action)
  {
    if actions != [] {
      assert actions == [actions[0]] + actions[1..];
      VisibleMembers(actions[1..], visible, r);
    }
  }

  lemma {:induction false} VisibleDistinct(actions: seq<Route>, visible: string -> bool)
    requires DistinctKeys(ActionOf, actions)
    ensures DistinctKeys(ActionOf, VisibleRoutes(actions, visible))
  {
    if actions != [] {
      VisibleDistinct(actions[1..], visible);
      var rest := VisibleRoutes(actions[1..], visible);
      forall j | 0 <= j < |rest| ensures actions[0].action != rest[j].action {
        VisibleMembers(actions[1..], visible, rest[j]);
        assert rest[j] in actions[1..];
        var k :| 0 <= k < |actions[1..]| && actions[1..][k] == rest[j];
        assert ActionOf(actions[0]) != ActionOf(actions[k + 1]);
      }
    }
  }

  lemma {:induction false} ExactIsFirst(actions: seq<Route>, r: Route, action: string)
    requires r in actions && Answers(r, action)
    requires forall s :: s in actions && Answers(s, action) ==> s == r
    ensures ExactRoute(actions, action) == Some(r)
  {
    assert actions == [actions[0]] + actions[1..];
    if !Answers(actions[0], action) {
      ExactIsFirst(actions[1..], r, action);
    }
  }

  lemma {:induction false} ExactAnswers(actions: seq<Route>, action: string)
    ensures match ExactRoute(actions, action)
            case Some(r) => r in actions && Answers(r, action)
            case None => forall s :: s in actions ==> !Answers(s, action)
  {
    if actions != [] {
      assert actions == [actions[0]] + actions[1..];
      ExactAnswers(actions[1..], action);
    }
  }

  lemma {:induction false} KeysLength(routes: seq<Route>)
    ensures |Keys(ActionOf, routes)| == |routes|
  {
    if routes != [] {
      KeysLength(routes[1..]);
    }
  }

  lemma AmbiguousLength(lt: Order, shown: seq<Route>, action: string)
    ensures |Ambiguous(lt, shown, action)| == |Select(BaseOf, shown, action)|
  {
    var chosen := Select(BaseOf, shown, action);
    KeysLength(chosen);
    SortContents(lt, Self, Keys(ActionOf, chosen));
    assert |multiset(Ambiguous(lt, shown, action))| == |multiset(Keys(ActionOf, chosen))|;
  }

  // ------------------------------------------------------------------ the routes of one capability

  /** The actions of a router of the table, and the candidates they were made from. */
  ghost predicate RouterActions(loc: Locale, candidates: seq<Route>, capability: string, actions: seq<Route>) {
    && AllCandidates(candidates) && DistinctKeys(QualifiedOf, candidates)
    && actions == SortBy(loc.lt, ActionOf, Select(CapabilityOf, Resolved(loc, candidates), capability))
  }

  lemma ActionsMembers(loc: Locale, candidates: seq<Route>, capability: string, actions: seq<Route>, r: Route)
    requires RouterActions(loc, candidates, capability, actions)
    ensures r in actions <==> r in Resolved(loc, candidates) && r.capability == capability
  {
    var chosen := Select(CapabilityOf, Resolved(loc, candidates), capability);
    SortContents(loc.lt, ActionOf, chosen);
    MultisetMembers(chosen, actions);
    SelectMembers(CapabilityOf, Resolved(loc, candidates), capability, r);
  }

  lemma ActionsDistinct(loc: Locale, candidates: seq<Route>, capability: string, actions: seq<Route>)
    requires StrictTotal(loc.lt) && RouterActions(loc, candidates, capability, actions)
    ensures DistinctKeys(ActionOf, actions)
  {
    var chosen := Select(CapabilityOf, Resolved(loc, candidates), capability);
    SortedKeysShape(loc.lt, GroupOf, candidates);
    ResolvedDistinct(loc, candidates, SortedKeys(loc.lt, GroupOf, candidates), capability);
    SortContents(loc.lt, ActionOf, chosen);
    PermutedDistinct(ActionOf, chosen, actions);
  }

  lemma SameActionSameRoute(actions: seq<Route>, r: Route, s: Route)
    requires DistinctKeys(ActionOf, actions) && r in actions && s in actions && r.action == s.action
    ensures r == s
  {
    if r != s {
      DistinctKeysApart(ActionOf, actions, r, s);
    }
  }

  /** A resolved route is found in the resolution of its own group. */
  lemma {:induction false} InOwnGroup(loc: Locale, candidates: seq<Route>, keys: seq<string>, r: Route)
    requires AllCandidates(candidates) && r in ResolveGroups(loc, candidates, keys)
    ensures var records := GroupRecords(loc, candidates, GroupOf(r));
            records != [] && r in ResolveGroup(loc, records) && Single(r) in records
  {
    var records := GroupRecords(loc, candidates, keys[0]);
    GroupRecordsShape(loc, candidates, keys[0]);
    if records != [] && r in ResolveGroup(loc, records) {
      ResolveGroupOrigin(loc, records, r);
      assert GroupOf(Single(r)) == GroupOf(r);
    } else {
      InOwnGroup(loc, candidates, keys[1..], r);
    }
  }

  lemma {:induction false} GroupIsResolved(
      loc: Locale, candidates: seq<Route>, keys: seq<string>, key: string, r: Route)
    requires key in keys && GroupRecords(loc, candidates, key) != []
             && r in ResolveGroup(loc, GroupRecords(loc, candidates, key))
    ensures r in ResolveGroups(loc, candidates, keys)
  {
    if key != keys[0] {
      assert keys == [keys[0]] + keys[1..];
      GroupIsResolved(loc, candidates, keys[1..], key, r);
    }
  }

  /** All that matters about the group of a route. */
  lemma OwnGroup(loc: Locale, candidates: seq<Route>, r: Route) returns (records: seq<Route>)
    requires AllCandidates(candidates) && DistinctKeys(QualifiedOf, candidates) && r in Resolved(loc, candidates)
    ensures records == GroupRecords(loc, candidates, GroupOf(r))
    ensures records != [] && AllCandidates(records) && DistinctKeys(QualifiedOf, records)
    ensures OneGroup(records, r.baseAction) && (forall x :: x in records ==> x.capability == r.capability)
    ensures r in ResolveGroup(loc, records) && Single(r) in records
    ensures r.baseAction == records[0].baseAction
    ensures |records| == 1 ==> r.legacyActions == [] && r.action == r.baseAction
    ensures |records| > 1 ==> r.legacyActions == Legacy(records, r.qualifiedName)
  {
    records := GroupRecords(loc, candidates, GroupOf(r));
    InOwnGroup(loc, candidates, SortedKeys(loc.lt, GroupOf, candidates), r);
    GroupRecordsShape(loc, candidates, GroupOf(r));
    var chosen := Select(GroupOf, candidates, GroupOf(r));
    SelectDistinct(GroupOf, QualifiedOf, candidates, GroupOf(r));
    SortContents(loc.lt, QualifiedOf, chosen);
    PermutedDistinct(QualifiedOf, chosen, records);
    assert records[0] in records;
    if |records| > 1 {
      EmitOrigin(loc, records, SortedKeys(loc.lt, InstanceOf, records), 0, {}, r);
    }
  }

  /** The position of a route's record in its group, and its alias. */
  lemma AliasPosition(records: seq<Route>, r: Route) returns (i: nat)
    requires AllCandidates(records) && DistinctKeys(QualifiedOf, records) && Single(r) in records
    requires r.legacyActions == Legacy(records, r.qualifiedName)
    ensures i < |records| && records[i] == Single(r)
    ensures r.legacyActions == if i == 0 then [] else [Numbered(r.baseAction, i + 1)]
  {
    i :| 0 <= i < |records| && records[i] == Single(r);
    AliasOf(records, i);
  }

  /** In a collision group no identifier is the bare base action. */
  lemma CollidingIsJoined(loc: Locale, records: seq<Route>, r: Route)
    requires |records| > 1 && AllCandidates(records) && OneGroup(records, records[0].baseAction)
    requires r in ResolveGroup(loc, records)
    ensures exists rest :: r.action == Joined(records[0].baseAction, rest)
  {
    EmitNames(loc, records, SortedKeys(loc.lt, InstanceOf, records), 0, {}, r);
    var rest := RestOf(records[0].baseAction, TokenOf(loc, r.instanceKey), r.action);
  }

  /** In a collision group neither an identifier nor an alias is the bare base action. */
  lemma CollidingNamesAreLonger(loc: Locale, records: seq<Route>, r: Route, name: string)
    requires |records| > 1 && AllCandidates(records) && DistinctKeys(QualifiedOf, records)
    requires OneGroup(records, records[0].baseAction) && r.baseAction == records[0].baseAction
    requires r in ResolveGroup(loc, records) && Single(r) in records
    requires r.legacyActions == Legacy(records, r.qualifiedName) && Answers(r, name)
    ensures |name| > |r.baseAction|
  {
    if r.action == name {
      CollidingIsJoined(loc, records, r);
      var rest :| r.action == Joined(records[0].baseAction, rest);
      JoinedParts(records[0].baseAction, rest);
    } else {
      var i := AliasPosition(records, r);
      JoinedParts(r.baseAction, Decimal(i + 1));
    }
  }

  // ------------------------------------------------------------------ names are not shared

  lemma {:induction false} ResolvedSame(loc: Locale, candidates: seq<Route>, r: Route, s: Route)
    requires StrictTotal(loc.lt) && AllCandidates(candidates) && DistinctKeys(QualifiedOf, candidates)
    requires r in Resolved(loc, candidates) && s in Resolved(loc, candidates) && Single(r) == Single(s)
    ensures r == s
  {
    var routes := Resolved(loc, candidates);
    ResolveConserves(loc, candidates, SortedKeys(loc.lt, GroupOf, candidates));
    RegroupedContents(loc.lt, GroupOf, candidates);
    PermutedDistinct(QualifiedOf, candidates, Origins(routes));
    OriginsNames(routes);
    var i :| 0 <= i < |routes| && routes[i] == r;
    var j :| 0 <= j < |routes| && routes[j] == s;
    SamePosition(QualifiedOf, Origins(routes), i, j);
  }

  /** No collision group among the candidates of the capability has a clash. */
  ghost predicate NoClash(loc: Locale, candidates: seq<Route>, capability: string) {
    forall c :: c in candidates && c.capability == capability && |GroupRecords(loc, candidates, GroupOf(c))| > 1 ==>
      !Clash(loc, GroupRecords(loc, candidates, GroupOf(c)))
  }

  /** Every name a route answers to extends its base action. */
  lemma AnswersExtend(loc: Locale, candidates: seq<Route>, r: Route, name: string)
    requires AllCandidates(candidates) && DistinctKeys(QualifiedOf, candidates) && r in Resolved(loc, candidates)
    requires Answers(r, name)
    ensures IsBase(r.baseAction) && Extends(name, r.baseAction)
  {
    var records := OwnGroup(loc, candidates, r);
    ResolvedOrigin(loc, candidates, SortedKeys(loc.lt, GroupOf, candidates), r);
    if name != r.action {
      var i := AliasPosition(records, r);
      JoinedExtends(name, r.baseAction, Decimal(i + 1));
    }
  }

  /** Of two routes in one collision group, an alias of one is not the identifier of the other. */
  lemma AliasNotTaken(loc: Locale, candidates: seq<Route>, records: seq<Route>, r: Route, s: Route)
    requires StrictTotal(loc.lt) && AllCandidates(candidates) && DistinctKeys(QualifiedOf, candidates)
    requires r in Resolved(loc, candidates) && s in Resolved(loc, candidates)
    requires GroupOf(r) == GroupOf(s) && records == GroupRecords(loc, candidates, GroupOf(r)) && |records| > 1
    requires !Clash(loc, records) && s.action in r.legacyActions
    ensures r == s
  {
    var own := OwnGroup(loc, candidates, r);
    var other := OwnGroup(loc, candidates, s);
    var i := AliasPosition(records, r);
    AliasIsOwn(loc, records, s, i);
    ResolvedSame(loc, candidates, r, s);
  }

  /** Without a clash, no two routes of a capability answer to the same name. */
  lemma AnswersUnique(
      loc: Locale, candidates: seq<Route>, capability: string, actions: seq<Route>, r: Route, s: Route, name: string)
    requires StrictTotal(loc.lt) && RouterActions(loc, candidates, capability, actions)
             && NoClash(loc, candidates, capability)
    requires r in actions && s in actions && Answers(r, name) && Answers(s, name)
    ensures r == s
  {
    ActionsMembers(loc, candidates, capability, actions, r);
    ActionsMembers(loc, candidates, capability, actions, s);
    AnswersExtend(loc, candidates, r, name);
    AnswersExtend(loc, candidates, s, name);
    if r.baseAction != s.baseAction {
      BasesApart(r.baseAction, name, s.baseAction, name);
    } else {
      SameGroupAnswersUnique(loc, candidates, capability, actions, r, s, name);
    }
  }

  lemma SameGroupAnswersUnique(
      loc: Locale, candidates: seq<Route>, capability: string, actions: seq<Route>, r: Route, s: Route, name: string)
    requires StrictTotal(loc.lt) && RouterActions(loc, candidates, capability, actions)
             && NoClash(loc, candidates, capability)
    requires r in actions && s in actions && Answers(r, name) && Answers(s, name) && r.baseAction == s.baseAction
    ensures r == s
  {
    ActionsMembers(loc, candidates, capability, actions, r);
    ActionsMembers(loc, candidates, capability, actions, s);
    if r.action == name && s.action == name {
      ActionsDistinct(loc, candidates, capability, actions);
      SameActionSameRoute(actions, r, s);
    } else if r.action == name {
      AliasedIsOwnGroup(loc, candidates, capability, s);
      AliasNotTaken(loc, candidates, GroupRecords(loc, candidates, GroupOf(s)), s, r);
    } else if s.action == name {
      AliasedIsOwnGroup(loc, candidates, capability, r);
      AliasNotTaken(loc, candidates, GroupRecords(loc, candidates, GroupOf(r)), r, s);
    } else {
      SharedAlias(loc, candidates, r, s, name);
    }
  }

  /** A route with an alias comes from a collision group. */
  lemma AliasedIsOwnGroup(loc: Locale, candidates: seq<Route>, capability: string, r: Route)
    requires AllCandidates(candidates) && DistinctKeys(QualifiedOf, candidates) && NoClash(loc, candidates, capability)
    requires r in Resolved(loc, candidates) && r.capability == capability && r.legacyActions != []
    ensures var records := GroupRecords(loc, candidates, GroupOf(r)); |records| > 1 && !Clash(loc, records)
  {
    var records := OwnGroup(loc, candidates, r);
    GroupRecordsShape(loc, candidates, GroupOf(r));
    assert Single(r) in candidates && GroupOf(Single(r)) == GroupOf(r);
  }

  /** No two routes of a group share an alias. */
  lemma SharedAlias(loc: Locale, candidates: seq<Route>, r: Route, s: Route, name: string)
    requires StrictTotal(loc.lt) && AllCandidates(candidates) && DistinctKeys(QualifiedOf, candidates)
    requires r in Resolved(loc, candidates) && s in Resolved(loc, candidates) && GroupOf(r) == GroupOf(s)
    requires name in r.legacyActions && name in s.legacyActions && r.baseAction == s.baseAction
    ensures r == s
  {
    var records := OwnGroup(loc, candidates, r);
    var again := OwnGroup(loc, candidates, s);
    SharedAliasRecord(records, r, s, name);
    ResolvedSame(loc, candidates, r, s);
  }

  lemma SharedAliasRecord(records: seq<Route>, r: Route, s: Route, name: string)
    requires AllCandidates(records) && DistinctKeys(QualifiedOf, records) && Single(r) in records
             && Single(s) in records
    requires r.legacyActions == Legacy(records, r.qualifiedName) && s.legacyActions == Legacy(records, s.qualifiedName)
    requires name in r.legacyActions && name in s.legacyActions && r.baseAction == s.baseAction
    ensures Single(r) == Single(s)
  {
    var i := AliasPosition(records, r);
    var j := AliasPosition(records, s);
    NumberedInjective(r.baseAction, i + 1, j + 1);
  }

  /** A name that some route answers to is the base action of at most that route. */
  lemma AnswersAreNoBase(
      loc: Locale, candidates: seq<Route>, capability: string, actions: seq<Route>, r: Route, s: Route, name: string)
    requires StrictTotal(loc.lt) && RouterActions(loc, candidates, capability, actions)
    requires r in actions && s in actions && Answers(r, name) && s.baseAction == name
    ensures r == s
  {
    ActionsMembers(loc, candidates, capability, actions, r);
    ActionsMembers(loc, candidates, capability, actions, s);
    AnswersExtend(loc, candidates, r, name);
    ResolvedOrigin(loc, candidates, SortedKeys(loc.lt, GroupOf, candidates), s);
    if r.baseAction != name {
      BasesApart(r.baseAction, name, name, name);
    }
    var records := OwnGroup(loc, candidates, r);
    var again := OwnGroup(loc, candidates, s);
    assert GroupOf(r) == GroupOf(s);
    if |records| > 1 {
      CollidingNamesAreLonger(loc, records, r, name);
    } else {
      assert Single(r) == records[0] == Single(s);
      ResolvedSame(loc, candidates, r, s);
    }
  }

  lemma {:induction false} AtMostOne(shown: seq<Route>, name: string, r: Route)
    requires DistinctKeys(ActionOf, shown) && forall s :: s in shown && s.baseAction == name ==> s == r
    ensures |Select(BaseOf, shown, name)| <= 1
  {
    var chosen := Select(BaseOf, shown, name);
    SelectDistinct(BaseOf, ActionOf, shown, name);
    if |chosen| > 1 {
      SelectMembers(BaseOf, shown, name, chosen[0]);
      SelectMembers(BaseOf, shown, name, chosen[1]);
      SamePosition(ActionOf, chosen, 0, 1);
    }
  }

  /** A name that exactly one route answers to selects that route, whatever the policy shows. */
  lemma NameSelects(
      loc: Locale, candidates: seq<Route>, capability: string, actions: seq<Route>, visible: string -> bool, r: Route,
      name: string)
    requires StrictTotal(loc.lt) && RouterActions(loc, candidates, capability, actions)
    requires r in actions && Answers(r, name)
    requires forall s :: s in actions && Answers(s, name) ==> s == r
    ensures Choose(loc.lt, actions, visible, name) == Selected(r, name)
  {
    var shown := VisibleRoutes(actions, visible);
    ActionsMembers(loc, candidates, capability, actions, r);
    AnswersExtend(loc, candidates, r, name);
    NeverDescribe(name, r.baseAction);
    ExtendsFirst(name, r.baseAction);
    ActionsDistinct(loc, candidates, capability, actions);
    VisibleDistinct(actions, visible);
    forall s | s in shown && s.baseAction == name ensures s == r {
      VisibleMembers(actions, visible, s);
      AnswersAreNoBase(loc, candidates, capability, actions, r, s, name);
    }
    AtMostOne(shown, name, r);
    AmbiguousLength(loc.lt, shown, name);
    ExactIsFirst(actions, r, name);
  }

  // ------------------------------------------------------------------ the closure

  /** Every identifier and every alias selects its own route. */
  ghost predicate NamesSelectTheirOwn(lt: Order, actions: seq<Route>, visible: string -> bool) {
    forall r, name :: r in actions && Answers(r, name) ==> Choose(lt, actions, visible, name) == Selected(r, name)
  }

  /** Listed identifiers and aliases all select their own route exactly when no collision group has a clash. */
  lemma DispatchExact(
      loc: Locale, candidates: seq<Route>, capability: string, actions: seq<Route>, visible: string -> bool)
    requires StrictTotal(loc.lt) && RouterActions(loc, candidates, capability, actions)
    ensures NamesSelectTheirOwn(loc.lt, actions, visible) <==> NoClash(loc, candidates, capability)
  {
    if NoClash(loc, candidates, capability) {
      forall r, name | r in actions && Answers(r, name)
        ensures Choose(loc.lt, actions, visible, name) == Selected(r, name)
      {
        forall s | s in actions && Answers(s, name) ensures s == r {
          AnswersUnique(loc, candidates, capability, actions, r, s, name);
        }
        NameSelects(loc, candidates, capability, actions, visible, r, name);
      }
    } else {
      ClashMisdirects(loc, candidates, capability, actions, visible);
    }
  }

  /** With a clash some name belongs to two routes, so one of them is out of reach under it. */
  lemma ClashMisdirects(
      loc: Locale, candidates: seq<Route>, capability: string, actions: seq<Route>, visible: string -> bool)
    requires StrictTotal(loc.lt) && RouterActions(loc, candidates, capability, actions)
    requires !NoClash(loc, candidates, capability)
    ensures !NamesSelectTheirOwn(loc.lt, actions, visible)
  {
    var c :| c in candidates && c.capability == capability && |GroupRecords(loc, candidates, GroupOf(c))| > 1
             && Clash(loc, GroupRecords(loc, candidates, GroupOf(c)));
    var key, records := GroupOf(c), GroupRecords(loc, candidates, GroupOf(c));
    GroupRecordsShape(loc, candidates, key);
    assert records[0] in records;
    var r, i := ClashSteals(loc, records);
    ResolveGroupOrigin(loc, records, r);
    GroupMemberIsListed(loc, candidates, capability, actions, c, r);
    var s := RouteOfRecord(loc, candidates, capability, actions, c, i);
    var own := OwnGroup(loc, candidates, s);
    AliasOf(records, i);
    assert s.legacyActions == [Numbered(records[i].baseAction, i + 1)];
    assert Answers(r, r.action) && Answers(s, r.action) && r != s;
  }

  lemma GroupMemberIsListed(
      loc: Locale, candidates: seq<Route>, capability: string, actions: seq<Route>, c: Route, r: Route)
    requires StrictTotal(loc.lt) && RouterActions(loc, candidates, capability, actions)
    requires c in candidates && c.capability == capability
    requires GroupRecords(loc, candidates, GroupOf(c)) != []
             && r in ResolveGroup(loc, GroupRecords(loc, candidates, GroupOf(c)))
    ensures r in actions && r in Resolved(loc, candidates)
  {
    var key, keys := GroupOf(c), SortedKeys(loc.lt, GroupOf, candidates);
    SortedKeysShape(loc.lt, GroupOf, candidates);
    KeysMembers(GroupOf, candidates, key);
    var i :| 0 <= i < |candidates| && candidates[i] == c;
    assert GroupOf(candidates[i]) == key;
    GroupIsResolved(loc, candidates, keys, key, r);
    GroupRecordsShape(loc, candidates, key);
    ResolveGroupOrigin(loc, GroupRecords(loc, candidates, key), r);
    assert c in GroupRecords(loc, candidates, key);
    assert Single(r).capability == c.capability;
    ActionsMembers(loc, candidates, capability, actions, r);
  }

  /** Every record of a group has its route in the list. */
  lemma RouteOfRecord(
      loc: Locale, candidates: seq<Route>, capability: string, actions: seq<Route>, c: Route, i: nat)
    returns (s: Route)
    requires StrictTotal(loc.lt) && RouterActions(loc, candidates, capability, actions)
    requires c in candidates && c.capability == capability && i < |GroupRecords(loc, candidates, GroupOf(c))|
    ensures s in actions && s in Resolved(loc, candidates) && Single(s) == GroupRecords(loc, candidates, GroupOf(c))[i]
    ensures GroupOf(s) == GroupOf(c)
  {
    var key, records := GroupOf(c), GroupRecords(loc, candidates, GroupOf(c));
    GroupRecordsShape(loc, candidates, key);
    var resolved := ResolveGroup(loc, records);
    GroupConserves(loc, records);
    OriginsNames(resolved);
    MultisetMembers(records, Origins(resolved));
    assert records[i] in records;
    assert records[i] in Origins(resolved);
    var j :| 0 <= j < |Origins(resolved)| && Origins(resolved)[j] == records[i];
    s := resolved[j];
    assert s in resolved;
    GroupMemberIsListed(loc, candidates, capability, actions, c, s);
    assert GroupOf(s) == GroupOf(Single(s));
  }

  /** A visible route with the requested base action. */
  ghost predicate Shares(actions: seq<Route>, visible: string -> bool, action: string, r: Route) {
    r in actions && visible(r.action) && r.baseAction == action
  }

  lemma AmbiguousMembers(lt: Order, actions: seq<Route>, visible: string -> bool, action: string, offered: string)
    ensures offered in Ambiguous(lt, VisibleRoutes(actions, visible), action)
            <==> exists r :: Shares(actions, visible, action, r) && r.action == offered
  {
    var shown := VisibleRoutes(actions, visible);
    var chosen := Select(BaseOf, shown, action);
    SortContents(lt, Self, Keys(ActionOf, chosen));
    MultisetMembers(Keys(ActionOf, chosen), Ambiguous(lt, shown, action));
    KeysMembers(ActionOf, chosen, offered);
    if i :| 0 <= i < |chosen| && ActionOf(chosen[i]) == offered {
      SelectMembers(BaseOf, shown, action, chosen[i]);
      VisibleMembers(actions, visible, chosen[i]);
      assert Shares(actions, visible, action, chosen[i]);
    }
    if r :| Shares(actions, visible, action, r) && r.action == offered {
      VisibleMembers(actions, visible, r);
      SelectMembers(BaseOf, shown, action, r);
      var i :| 0 <= i < |chosen| && chosen[i] == r;
      assert ActionOf(chosen[i]) == offered;
    }
  }

  /** Disambiguation offers, in order, exactly the identifiers of the visible routes with the requested base action. */
  lemma OfferedExactly(lt: Order, actions: seq<Route>, visible: string -> bool, action: string, offered: string)
    requires StrictTotal(lt) && Choose(lt, actions, visible, action).Disambiguate?
    ensures Ascending(lt, Self, Choose(lt, actions, visible, action).candidates)
    ensures offered in Choose(lt, actions, visible, action).candidates
            <==> exists r :: Shares(actions, visible, action, r) && r.action == offered
  {
    SortAscending(lt, Self, Keys(ActionOf, Select(BaseOf, VisibleRoutes(actions, visible), action)));
    AmbiguousMembers(lt, actions, visible, action, offered);
  }

  /** With two visible routes of the requested base action there is no choosing between them. */
  lemma TwoAreAmbiguous(lt: Order, actions: seq<Route>, visible: string -> bool, action: string, r: Route, s: Route)
    requires Shares(actions, visible, action, r) && Shares(actions, visible, action, s) && r.action != s.action
    requires action != "" && action != DESCRIBE_ACTION
    ensures Choose(lt, actions, visible, action).Disambiguate?
  {
    AmbiguousMembers(lt, actions, visible, action, r.action);
    AmbiguousMembers(lt, actions, visible, action, s.action);
  }

  /**
   * A base action that is no name of its own selects the one visible route that has it, under that route's identifier,
   * and is unknown when there is none.
   */
  lemma BaseActionOutcome(lt: Order, actions: seq<Route>, visible: string -> bool, action: string)
    requires DistinctKeys(ActionOf, actions) && action != "" && action != DESCRIBE_ACTION
    requires forall s :: s in actions ==> !Answers(s, action)
    ensures match Choose(lt, actions, visible, action)
            case Disambiguate(_) =>
              exists r, s :: Shares(actions, visible, action, r) && Shares(actions, visible, action, s) && r != s
            case Selected(r, name) => name == r.action && Shares(actions, visible, action, r)
                                   && forall s :: Shares(actions, visible, action, s) ==> s == r
            case UnknownAction(_) => forall s :: !Shares(actions, visible, action, s)
            case _ => false
  {
    var shown := VisibleRoutes(actions, visible);
    var chosen := Select(BaseOf, shown, action);
    ExactAnswers(actions, action);
    AmbiguousLength(lt, shown, action);
    forall s ensures Shares(actions, visible, action, s) <==> s in chosen {
      VisibleMembers(actions, visible, s);
      SelectMembers(BaseOf, shown, action, s);
    }
    if |chosen| > 1 {
      VisibleDistinct(actions, visible);
      SelectDistinct(BaseOf, ActionOf, shown, action);
      assert ActionOf(chosen[0]) != ActionOf(chosen[1]);
      assert chosen[0] in chosen && chosen[1] in chosen;
    }
  }

  /** The dispatch promises hold for the routers of proper inventories without all-digit instance tokens. */
  ghost predicate NoDigitTokens(loc: Locale, inventories: seq<Inventory>) {
    forall v :: v in inventories ==> !AllDigits(TokenOf(loc, v.namespace))
  }

  lemma NoDigitTokensNoClash(
      loc: Locale, grouping: map<string, string>, inventories: seq<Inventory>, capability: string)
    requires StrictTotal(loc.lt) && NoDigitTokens(loc, inventories)
    ensures NoClash(loc, Candidates(loc, grouping, inventories), capability)
  {
    var candidates := Candidates(loc, grouping, inventories);
    CandidatesShape(loc, grouping, inventories);
    forall c | c in candidates ensures !Clash(loc, GroupRecords(loc, candidates, GroupOf(c))) {
      var records := GroupRecords(loc, candidates, GroupOf(c));
      GroupRecordsShape(loc, candidates, GroupOf(c));
      forall r | r in records ensures !AllDigits(TokenOf(loc, r.instanceKey)) {
        CandidatesSource(loc, grouping, inventories, r);
      }
      NoDigitsNoClash(loc, records);
    }
  }

  /** The router at a place of the table. */
  lemma RouterAt(loc: Locale, grouping: map<string, string>, inventories: seq<Inventory>, i: nat)
    requires Proper(inventories) && i < |BuildRouters(loc, grouping, inventories)|
    ensures var router := BuildRouters(loc, grouping, inventories)[i];
            RouterActions(loc, Candidates(loc, grouping, inventories), router.capability, router.actions)
  {
    var routes := Resolved(loc, Candidates(loc, grouping, inventories));
    RouterOf(loc, routes, SortedKeys(loc.lt, CapabilityOf, routes), i);
    CandidatesShape(loc, grouping, inventories);
    CandidatesDistinct(loc, grouping, inventories);
  }

  /** Every listed identifier and every alias selects its own route. */
  lemma SelectsItsOwn(
      loc: Locale, grouping: map<string, string>, inventories: seq<Inventory>, i: nat, visible: string -> bool,
      r: Route, name: string)
    requires StrictTotal(loc.lt) && Proper(inventories) && NoDigitTokens(loc, inventories)
    requires i < |BuildRouters(loc, grouping, inventories)|
    requires r in BuildRouters(loc, grouping, inventories)[i].actions && Answers(r, name)
    ensures Choose(loc.lt, BuildRouters(loc, grouping, inventories)[i].actions, visible, name) == Selected(r, name)
  {
    var router := BuildRouters(loc, grouping, inventories)[i];
    RouterAt(loc, grouping, inventories, i);
    NoDigitTokensNoClash(loc, grouping, inventories, router.capability);
    DispatchExact(loc, Candidates(loc, grouping, inventories), router.capability, router.actions, visible);
  }

  /**
   * Dispatch closure: every listed identifier, every alias and every offered candidate selects its own route, and the
   * qualified name passed on resolves to the tool that route was built from.
   */
  lemma DispatchClosure(
      loc: Locale, grouping: map<string, string>, inventories: seq<Inventory>, i: nat, visible: string -> bool,
      order: seq<string>, connections: map<string, Connection>, r: Route, name: string)
    requires StrictTotal(loc.lt) && Proper(inventories) && NoDigitTokens(loc, inventories)
    requires i < |BuildRouters(loc, grouping, inventories)|
    requires forall v :: v in inventories ==>
               v.namespace in connections && connections[v.namespace] == Connection(true, v.tools)
    requires r in BuildRouters(loc, grouping, inventories)[i].actions && Answers(r, name)
    ensures Choose(loc.lt, BuildRouters(loc, grouping, inventories)[i].actions, visible, name) == Selected(r, name)
    ensures exists v, t :: v in inventories && t in v.tools
                        && Single(r) == Candidate(loc, CapabilityFor(grouping, v.namespace), v, t)
                        && FindTool(order, connections, r.qualifiedName) == Found(v.namespace, t)
  {
    var candidates := Candidates(loc, grouping, inventories);
    var router := BuildRouters(loc, grouping, inventories)[i];
    SelectsItsOwn(loc, grouping, inventories, i, visible, r, name);
    RouterAt(loc, grouping, inventories, i);
    ActionsMembers(loc, candidates, router.capability, router.actions, r);
    ResolvedOrigin(loc, candidates, SortedKeys(loc.lt, GroupOf, candidates), r);
    CandidatesSource(loc, grouping, inventories, Single(r));
    var v, t :| v in inventories && t in v.tools
                && Single(r) == Candidate(loc, CapabilityFor(grouping, v.namespace), v, t);
    QualifiedNameResolves(order, connections, v.namespace, t);
  }
}
