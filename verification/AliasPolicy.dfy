/** A request by an alias is not judged by what the policy says about the identifier of the route it selects. */
module AliasPolicy {
  import opened Common
  import opened Sorting
  import opened Grouping
  import opened Tokens
  import opened ActionIds
  import opened Routing
  import opened RoutingIds
  import opened RoutingTable
  import opened GroupNames
  import opened ToolNames
  import opened Dispatch
  import opened Policy

  // ------------------------------------------------------------------ the characters of identifiers

  lemma NumberedChars(base: string, n: nat)
    requires NameChars(base)
    ensures NameChars(Numbered(base, n))
  {
    DecimalShape(n);
    JoinedChars(base, Decimal(n));
  }

  lemma JoinedChars(base: string, rest: string)
    requires NameChars(base) && NameChars(rest)
    ensures NameChars(Joined(base, rest))
  {
  }

  lemma JoinedFront(base: string, rest: string)
    requires NameChars(Joined(base, rest))
    ensures NameChars(base)
  {
    assert forall k :: 0 <= k < |base| ==> Joined(base, rest)[k] == base[k];
  }

  lemma StemChars(actionBase: string, index: nat)
    requires NameChars(actionBase)
    ensures NameChars(Retries(actionBase, index).0)
  {
    if SuffixMatch(actionBase).Some? {
      SuffixMatchParts(actionBase);
      var digits :| AllDigits(digits) && actionBase == Joined(SuffixMatch(actionBase).value.0, digits);
      JoinedFront(SuffixMatch(actionBase).value.0, digits);
    }
  }

  lemma AllocateChars(taken: set<string>, actionBase: string, index: nat)
    requires NameChars(actionBase)
    ensures NameChars(Allocate(taken, actionBase, index))
  {
    StemChars(actionBase, index);
    var (stem, start) := Retries(actionBase, index);
    var m := ProbeIsFree(taken, stem, start);
    NumberedChars(stem, m);
    NumberedChars(actionBase, index + 1);
  }

  lemma {:induction false} IdsChars(taken: set<string>, base: string, count: nat, index: nat, j: nat)
    requires NameChars(base) && j < |EmitIds(taken, base, count, index)|
    ensures NameChars(EmitIds(taken, base, count, index)[j])
    decreases if index < count then count - index else 0
  {
    AllocateChars(taken, base, index);
    if j > 0 {
      IdsChars(taken + {Allocate(taken, base, index)}, base, count, index + 1, j - 1);
    }
  }

  lemma InstanceBaseChars(loc: Locale, b: string, ks: seq<string>, i: nat)
    requires NameChars(b) && i < |ks|
    ensures NameChars(Joined(b, InstanceToken(loc, ks, i)))
  {
    var token := TokenOf(loc, ks[i]);
    TokenShape(loc.lower, ks[i]);
    NumberedChars(token, Routing.Rank(loc, ks, i) + 1);
    JoinedChars(b, InstanceToken(loc, ks, i));
  }

  lemma {:induction false} EmitChars(
      loc: Locale, records: seq<Route>, ks: seq<string>, i: nat, taken: set<string>, r: Route)
    requires i <= |ks| && records != [] && NameChars(records[0].baseAction) && r in Emit(loc, records, ks, i, taken)
    ensures NameChars(r.action)
    decreases |ks| - i
  {
    var mine := Select(InstanceOf, records, ks[i]);
    var base := Joined(records[0].baseAction, InstanceToken(loc, ks, i));
    var ids := EmitIds(taken, base, |mine|, 0);
    var here := Stamp(records, mine, ids);
    if r in here {
      var j :| 0 <= j < |here| && here[j] == r;
      InstanceBaseChars(loc, records[0].baseAction, ks, i);
      IdsChars(taken, base, |mine|, 0, j);
    } else {
      EmitChars(loc, records, ks, i + 1, taken + Elements(ids), r);
    }
  }

  lemma BaseChars(b: string)
    requires IsBase(b)
    ensures NameChars(b) && b != ""
  {
    assert forall k :: 0 <= k < |RESERVED_ACTION| ==> NameChar(RESERVED_ACTION[k]);
  }

  /** Every identifier of a table is a non-empty string of lower-case letters, digits and underscores. */
  lemma ActionChars(loc: Locale, candidates: seq<Route>, r: Route)
    requires AllCandidates(candidates) && DistinctKeys(QualifiedOf, candidates) && r in Resolved(loc, candidates)
    ensures NameChars(r.action) && r.action != ""
  {
    var records := OwnGroup(loc, candidates, r);
    AnswersExtend(loc, candidates, r, r.action);
    BaseChars(r.baseAction);
    ExtendsFirst(r.action, r.baseAction);
    if |records| > 1 {
      EmitChars(loc, records, SortedKeys(loc.lt, InstanceOf, records), 0, {}, r);
    }
  }

  // ------------------------------------------------------------------ an alias is another name

  /** Unless its instance token consists of digits, a route's identifier is none of its aliases. */
  lemma AliasIsAnother(loc: Locale, candidates: seq<Route>, r: Route, alias: string)
    requires AllCandidates(candidates) && DistinctKeys(QualifiedOf, candidates) && r in Resolved(loc, candidates)
    requires !AllDigits(TokenOf(loc, r.instanceKey)) && alias in r.legacyActions
    ensures alias != r.action
  {
    var records := OwnGroup(loc, candidates, r);
    var i := AliasPosition(records, r);
    EmitNames(loc, records, SortedKeys(loc.lt, InstanceOf, records), 0, {}, r);
    TokenShape(loc.lower, r.instanceKey);
    AliasMeetsId(r.baseAction, TokenOf(loc, r.instanceKey), r.action, i + 1);
    DecimalShape(i + 1);
  }

  /**
   * Every alias passes a block on its identifier: where all actions of the capability are allowed but this one, a
   * request by the identifier is blocked and a request by the alias selects the same route and is allowed.
   */
  lemma AliasJudgedApart(
      loc: Locale, grouping: map<string, string>, inventories: seq<Inventory>, i: nat, visible: string -> bool,
      r: Route, alias: string)
    requires StrictTotal(loc.lt) && Proper(inventories) && NoDigitTokens(loc, inventories)
    requires i < |BuildRouters(loc, grouping, inventories)|
    requires r in BuildRouters(loc, grouping, inventories)[i].actions && alias in r.legacyActions
    requires ColonFree(r.capability) && r.capability != ""
    ensures var Router(capability, actions) := BuildRouters(loc, grouping, inventories)[i];
            var lists := Lists([Qualify(capability, r.action)], [Qualify(capability, WILDCARD)], []);
            && Choose(loc.lt, actions, visible, r.action) == Selected(r, r.action)
            && Choose(loc.lt, actions, visible, alias) == Selected(r, alias)
            && GateFor(lists, capability, r.action) == Blocked && GateFor(lists, capability, alias) == Allowed
  {
    var router := BuildRouters(loc, grouping, inventories)[i];
    SelectsItsOwn(loc, grouping, inventories, i, visible, r, r.action);
    SelectsItsOwn(loc, grouping, inventories, i, visible, r, alias);
    RouterAt(loc, grouping, inventories, i);
    ActionsMembers(loc, Candidates(loc, grouping, inventories), router.capability, router.actions, r);
    RoutedNamesApart(loc, grouping, inventories, r, alias);
    NamesJudgedApart(r.capability, r.action, alias);
  }

  lemma RoutedNamesApart(
      loc: Locale, grouping: map<string, string>, inventories: seq<Inventory>, r: Route, alias: string)
    requires Proper(inventories) && NoDigitTokens(loc, inventories)
    requires r in Resolved(loc, Candidates(loc, grouping, inventories)) && alias in r.legacyActions
    ensures ColonFree(r.action) && r.action != "" && r.action != WILDCARD && alias != r.action
  {
    var candidates := Candidates(loc, grouping, inventories);
    CandidatesShape(loc, grouping, inventories);
    CandidatesDistinct(loc, grouping, inventories);
    ActionChars(loc, candidates, r);
    ResolvedOrigin(loc, candidates, SortedKeys(loc.lt, GroupOf, candidates), r);
    CandidatesSource(loc, grouping, inventories, Single(r));
    AliasIsAnother(loc, candidates, r, alias);
    assert !NameChar('*') && !NameChar(':');
  }

  /** Two tools of one capability with the same base action are enough for a route with an alias. */
  lemma SharedBaseHasAlias(
      loc: Locale, grouping: map<string, string>, inventories: seq<Inventory>, v: Inventory, t: Tool, w: Inventory,
      u: Tool)
    returns (i: nat, r: Route)
    requires StrictTotal(loc.lt) && Proper(inventories)
    requires v in inventories && t in v.tools && w in inventories && u in w.tools
    requires var capability := CapabilityFor(grouping, v.namespace);
             var c, d := Candidate(loc, capability, v, t), Candidate(loc, CapabilityFor(grouping, w.namespace), w, u);
             c != d && c.capability == d.capability && c.baseAction == d.baseAction
    ensures i < |BuildRouters(loc, grouping, inventories)|
    ensures r in BuildRouters(loc, grouping, inventories)[i].actions && r.legacyActions != []
    ensures r.capability == CapabilityFor(grouping, v.namespace)
  {
    var candidates := Candidates(loc, grouping, inventories);
    var capability := CapabilityFor(grouping, v.namespace);
    var c, d := Candidate(loc, capability, v, t), Candidate(loc, CapabilityFor(grouping, w.namespace), w, u);
    CandidatesShape(loc, grouping, inventories);
    CandidatesDistinct(loc, grouping, inventories);
    CandidatesSource(loc, grouping, inventories, c);
    CandidatesSource(loc, grouping, inventories, d);
    r := SecondRoute(loc, candidates, c, d);
    i := PlaceOfCapability(loc, grouping, inventories, r);
  }

  /** The route of the second record of a group of two or more has an alias. */
  lemma SecondRoute(loc: Locale, candidates: seq<Route>, c: Route, d: Route) returns (r: Route)
    requires StrictTotal(loc.lt) && AllCandidates(candidates) && DistinctKeys(QualifiedOf, candidates)
    requires c in candidates && d in candidates && c != d && GroupOf(c) == GroupOf(d)
    ensures r in Resolved(loc, candidates) && r.legacyActions != [] && r.capability == c.capability
  {
    var records := GroupRecords(loc, candidates, GroupOf(c));
    GroupRecordsShape(loc, candidates, GroupOf(c));
    assert c in records && d in records;
    var routes := Select(CapabilityOf, Resolved(loc, candidates), c.capability);
    r := RouteOfRecord(loc, candidates, c.capability, SortBy(loc.lt, ActionOf, routes), c, 1);
    var own := OwnGroup(loc, candidates, r);
    AliasOf(records, 1);
  }

  /** Where the table lists a resolved route. */
  lemma PlaceOfCapability(loc: Locale, grouping: map<string, string>, inventories: seq<Inventory>, r: Route)
    returns (i: nat)
    requires StrictTotal(loc.lt) && Proper(inventories)
    requires r in Resolved(loc, Candidates(loc, grouping, inventories))
    ensures i < |BuildRouters(loc, grouping, inventories)|
    ensures r in BuildRouters(loc, grouping, inventories)[i].actions
  {
    var candidates := Candidates(loc, grouping, inventories);
    var routes := Resolved(loc, candidates);
    var capabilities := SortedKeys(loc.lt, CapabilityOf, routes);
    SortedKeysShape(loc.lt, CapabilityOf, routes);
    KeysMembers(CapabilityOf, routes, r.capability);
    var j :| 0 <= j < |routes| && routes[j] == r;
    assert CapabilityOf(routes[j]) == r.capability;
    i :| 0 <= i < |capabilities| && capabilities[i] == r.capability;
    RoutersLength(loc, routes, capabilities);
    RouterOf(loc, routes, capabilities, i);
    RouterAt(loc, grouping, inventories, i);
    ActionsMembers(loc, candidates, r.capability, BuildRouters(loc, grouping, inventories)[i].actions, r);
  }

  lemma {:induction false} RoutersLength(loc: Locale, routes: seq<Route>, capabilities: seq<string>)
    ensures |RoutersFor(loc, routes, capabilities)| == |capabilities|
  {
    if capabilities != [] {
      RoutersLength(loc, routes, capabilities[1..]);
    }
  }
}
