/** Policy evaluation (src/security/policy.ts) on top of the confirmation-token ledger. */
module Policy {
  import opened Common
  import opened Ledger
  import opened Sorting
  import opened Grouping
  import opened Routing
  import opened RoutingTable
  import opened ToolNames
  import opened Dispatch

  // ------------------------------------------------------------------ patterns

  const WILDCARD := "*"

  /** pattern.split(":", 2) */
  function SplitTwo(pattern: string): (string, Option<string>) {
    var i := IndexOfColon(pattern);
    if i == -1 then (pattern, None)
    else
      var rest := pattern[i + 1..];
      var j := IndexOfColon(rest);
      (pattern[..i], Some(if j == -1 then rest else rest[..j]))
  }

  /** The scope itself, and the older scope whose policies still cover it. */
  function PolicyScopes(serverKey: string): seq<string> {
    if serverKey == "design_workspace" then [serverKey, "design"] else [serverKey]
  }

  predicate MatchesPattern(pattern: string, serverKey: string, toolName: string) {
    var (patternServer, patternTool) := SplitTwo(pattern);
    if patternServer == "" || patternTool == None || patternTool.value == "" then false
    else
      && (patternServer == WILDCARD || patternServer in PolicyScopes(serverKey))
      && (patternTool.value == WILDCARD || patternTool.value == toolName)
  }

  predicate MatchesAnyPattern(patterns: seq<string>, serverKey: string, toolName: string) {
    exists i :: 0 <= i < |patterns| && MatchesPattern(patterns[i], serverKey, toolName)
  }

  lemma SplitOfPattern(scope: string, tool: string, tail: string)
    requires ColonFree(scope) && ColonFree(tool) && (tail != "" ==> tail[0] == ':')
    ensures SplitTwo(Qualify(scope, tool) + tail) == (scope, Some(tool))
  {
    var pattern, rest := Qualify(scope, tool) + tail, tool + tail;
    assert pattern == Qualify(scope, rest);
    QualifiedRoundTrip(scope, rest);
    if tail == "" {
      assert rest == tool;
    } else {
      assert rest == Qualify(tool, tail[1..]);
      QualifiedRoundTrip(tool, tail[1..]);
    }
  }

  /** A pattern is two names joined by a colon, and anything after a further colon is ignored. */
  lemma PatternMeaning(scope: string, tool: string, tail: string, serverKey: string, toolName: string)
    requires ColonFree(scope) && ColonFree(tool) && (tail != "" ==> tail[0] == ':')
    ensures MatchesPattern(Qualify(scope, tool) + tail, serverKey, toolName) <==>
            && scope != "" && tool != ""
            && (scope == WILDCARD || scope == serverKey || (scope == "design" && serverKey == "design_workspace"))
            && (tool == WILDCARD || tool == toolName)
  {
    SplitOfPattern(scope, tool, tail);
  }

  /** A pattern without a colon matches nothing. */
  lemma BarePatternMatchesNothing(pattern: string, serverKey: string, toolName: string)
    requires ColonFree(pattern)
    ensures !MatchesPattern(pattern, serverKey, toolName)
  {
  }

  // ------------------------------------------------------------------ decisions

  datatype Lists = Lists(block: seq<string>, allow: seq<string>, confirm: seq<string>)

  datatype Context = Context(
    capability: Option<string>,
    action: Option<string>,
    serverKey: Option<string>,
    toolName: Option<string>,
    confirmationToken: Option<string>)

  /** Which list decides; the order of the tests is the precedence. */
  datatype Gate = Blocked | Allowed | NeedsConfirmation | Unlisted

  datatype Decision = Block | Allow | Confirm(token: string)

  datatype Visibility = Visibility(visible: bool, requiresConfirmation: bool)

  /** a ?? b, where a missing value is the empty string. */
  function OrElse(a: Option<string>, b: Option<string>): string {
    match a
    case Some(value) => value
    case None => match b case Some(value) => value case None => ""
  }

  function GateFor(lists: Lists, capability: string, action: string): Gate {
    if MatchesAnyPattern(lists.block, capability, action) then Blocked
    else if MatchesAnyPattern(lists.allow, capability, action) then Allowed
    else if MatchesAnyPattern(lists.confirm, capability, action) then NeedsConfirmation
    else Unlisted
  }

  function ToolVisibility(lists: Lists, capability: string, action: string): Visibility {
    if MatchesAnyPattern(lists.block, capability, action) then Visibility(false, false)
    else if MatchesAnyPattern(lists.allow, capability, action) then Visibility(true, false)
    else if MatchesAnyPattern(lists.confirm, capability, action) then Visibility(true, true)
    else Visibility(false, false)
  }

  /** The clock readings of one evaluation: at the check, at the cleanup before a new token, and at its creation. */
  datatype Readings = Readings(check: int, now: int, stamp: int)

  /** The pending confirmations, and the ledger of everything that has happened to them. */
  class ConfirmationStore {
    var pendingConfirmations: Pending
    ghost var ledger: seq<Step>

    ghost predicate Valid()
      reads this
    {
      pendingConfirmations == PendingAfter(ledger)
    }

    constructor ()
      ensures Valid() && ledger == []
    {
      pendingConfirmations, ledger := map[], [];
    }

    method CleanupExpiredTokens(now: int)
      modifies this`pendingConfirmations
      ensures pendingConfirmations == Cleanup(old(pendingConfirmations), now)
    {
      var tokens := pendingConfirmations.Keys;
      while tokens != {}
        invariant tokens <= pendingConfirmations.Keys <= old(pendingConfirmations).Keys
        invariant forall t :: t in pendingConfirmations ==> pendingConfirmations[t] == old(pendingConfirmations)[t]
        invariant forall t :: t in old(pendingConfirmations) && t !in tokens ==>
                    (t in pendingConfirmations <==> now - old(pendingConfirmations)[t].createdAt <= CONFIRMATION_TTL_MS)
        decreases tokens
      {
        var token :| token in tokens;
        tokens := tokens - {token};
        if now - pendingConfirmations[token].createdAt > CONFIRMATION_TTL_MS {
          pendingConfirmations := pendingConfirmations - {token};
        }
      }
    }

    method ValidateConfirmationToken(token: string, capability: string, action: string, now: int) returns (valid: bool)
      requires Valid()
      modifies this
      ensures Valid() && ledger == old(ledger) + [Check(token, capability, action, now)]
      ensures valid == AcceptedBy(old(ledger), Check(token, capability, action, now))
    {
      PendingNext(ledger, Check(token, capability, action, now));
      ledger := ledger + [Check(token, capability, action, now)];
      CleanupExpiredTokens(now);
      if token !in pendingConfirmations {
        return false;
      }
      var confirmation := pendingConfirmations[token];
      if confirmation.capability != capability || confirmation.action != action {
        return false;
      }
      pendingConfirmations := pendingConfirmations - {token};
      return true;
    }

    method CreateConfirmationToken(capability: string, action: string, generated: string, now: int, stamp: int)
      returns (token: string)
      requires Valid()
      modifies this
      ensures Valid() && ledger == old(ledger) + [Issue(capability, action, generated, now, stamp)]
      ensures token == generated && Accepts(pendingConfirmations, token, capability, action)
    {
      PendingNext(ledger, Issue(capability, action, generated, now, stamp));
      ledger := ledger + [Issue(capability, action, generated, now, stamp)];
      CleanupExpiredTokens(now);
      token := generated;
      pendingConfirmations := pendingConfirmations[token := Confirmation(capability, action, stamp)];
    }

    method GetPendingConfirmationCount(now: int) returns (count: nat)
      requires Valid()
      modifies this
      ensures Valid() && ledger == old(ledger) + [CountPending(now)] && count == |PendingAfter(ledger)|
    {
      PendingNext(ledger, CountPending(now));
      ledger := ledger + [CountPending(now)];
      CleanupExpiredTokens(now);
      count := |pendingConfirmations|;
    }

    /** A token that is accepted confirms; otherwise, or without one, a new token is issued. */
    method Confirmed(
        capability: string, action: string, confirmationToken: Option<string>, generated: string, clock: Readings)
      returns (decision: Decision)
      requires Valid()
      modifies this
      ensures Valid()
      ensures var issue := Issue(capability, action, generated, clock.now, clock.stamp);
              if confirmationToken == None || confirmationToken.value == ""
              then decision == Confirm(generated) && ledger == old(ledger) + [issue]
              else
                var check := Check(confirmationToken.value, capability, action, clock.check);
                if AcceptedBy(old(ledger), check) then decision == Allow && ledger == old(ledger) + [check]
                else decision == Confirm(generated) && ledger == old(ledger) + [check, issue]
    {
      if confirmationToken.Some? && confirmationToken.value != "" {
        var valid := ValidateConfirmationToken(confirmationToken.value, capability, action, clock.check);
        if valid {
          return Allow;
        }
      }
      var token := CreateConfirmationToken(capability, action, generated, clock.now, clock.stamp);
      return Confirm(token);
    }

    /** Allow without an allow entry costs an accepted token; everything else leaves accepted tokens alone. */
    method EvaluatePolicy(context: Context, lists: Lists, generated: string, clock: Readings)
      returns (decision: Decision)
      requires Valid()
      modifies this
      ensures Valid()
      ensures var capability := match (context.capability, context.serverKey)
                                case (Some(name), _) => name
                                case (None, Some(name)) => name
                                case (None, None) => "";
              var action := match (context.action, context.toolName)
                            case (Some(name), _) => name
                            case (None, Some(name)) => name
                            case (None, None) => "";
              if capability == "" || action == "" then decision == Block && ledger == old(ledger)
              else
                match GateFor(lists, capability, action)
                case Blocked => decision == Block && ledger == old(ledger)
                case Allowed => decision == Allow && ledger == old(ledger)
                case Unlisted => decision == Block && ledger == old(ledger)
                case NeedsConfirmation =>
                  var issue := Issue(capability, action, generated, clock.now, clock.stamp);
                  if context.confirmationToken == None || context.confirmationToken.value == ""
                  then decision == Confirm(generated) && ledger == old(ledger) + [issue]
                  else
                    var check := Check(context.confirmationToken.value, capability, action, clock.check);
                    if AcceptedBy(old(ledger), check) then decision == Allow && ledger == old(ledger) + [check]
                    else decision == Confirm(generated) && ledger == old(ledger) + [check, issue]
    {
      var capability := OrElse(context.capability, context.serverKey);
      var action := OrElse(context.action, context.toolName);
      if capability == "" || action == "" {
        return Block;
      }
      if MatchesAnyPattern(lists.block, capability, action) {
        return Block;
      }
      if MatchesAnyPattern(lists.allow, capability, action) {
        return Allow;
      }
      if MatchesAnyPattern(lists.confirm, capability, action) {
        decision := Confirmed(capability, action, context.confirmationToken, generated, clock);
        return;
      }
      return Block;
    }
  }

  /** What the policy shows of a capability. */
  function Shown(lists: Lists, capability: string): string -> bool {
    a => ToolVisibility(lists, capability, a).visible
  }

  predicate Refused(gate: Gate) {
    gate.Blocked? || gate.Unlisted?
  }

  lemma ShownUnlessRefused(lists: Lists, capability: string, name: string)
    ensures Shown(lists, capability)(name) <==> !Refused(GateFor(lists, capability, name))
  {
  }

  ghost predicate SomeMatches(patterns: seq<string>, capability: string, name: string) {
    exists pattern :: pattern in patterns && MatchesPattern(pattern, capability, name)
  }

  /** Blocking comes before allowing, and allowing before confirming; what no list has is refused. */
  lemma GateExactly(lists: Lists, capability: string, name: string)
    ensures match GateFor(lists, capability, name)
            case Blocked => SomeMatches(lists.block, capability, name)
            case Allowed => !SomeMatches(lists.block, capability, name) && SomeMatches(lists.allow, capability, name)
            case NeedsConfirmation =>
              && !SomeMatches(lists.block, capability, name) && !SomeMatches(lists.allow, capability, name)
              && SomeMatches(lists.confirm, capability, name)
            case Unlisted =>
              && !SomeMatches(lists.block, capability, name) && !SomeMatches(lists.allow, capability, name)
              && !SomeMatches(lists.confirm, capability, name)
  {
    SomeMatch(lists.block, capability, name);
    SomeMatch(lists.allow, capability, name);
    SomeMatch(lists.confirm, capability, name);
  }

  lemma SomeMatch(patterns: seq<string>, capability: string, name: string)
    ensures SomeMatches(patterns, capability, name) <==> MatchesAnyPattern(patterns, capability, name)
  {
    if i :| 0 <= i < |patterns| && MatchesPattern(patterns[i], capability, name) {
      assert patterns[i] in patterns;
    }
  }

  /** What is shown is what is not refused, and it is marked exactly when it needs confirmation. */
  lemma VisibilityExactly(lists: Lists, capability: string, name: string)
    ensures var shown := ToolVisibility(lists, capability, name);
            && (shown.visible <==> GateFor(lists, capability, name) in {Allowed, NeedsConfirmation})
            && (shown.requiresConfirmation <==> GateFor(lists, capability, name) == NeedsConfirmation)
  {
  }

  /** What the describe action lists are exactly the routed actions that an evaluation would not refuse. */
  lemma DescribedAreNotRefused(lt: Order, actions: seq<Route>, lists: Lists, capability: string, name: string)
    ensures var outcome := Choose(lt, actions, Shown(lists, capability), DESCRIBE_ACTION);
            && outcome.Described?
            && (name in outcome.actions <==> Routed(actions, name) && !Refused(GateFor(lists, capability, name)))
  {
    DescribedNames(lt, actions, Shown(lists, capability), name);
    ShownUnlessRefused(lists, capability, name);
  }

  ghost predicate Routed(actions: seq<Route>, name: string) {
    exists r :: r in actions && r.action == name
  }

  lemma DescribedNames(lt: Order, actions: seq<Route>, visible: string -> bool, name: string)
    ensures var names := SortBy(lt, Self, Keys(ActionOf, VisibleRoutes(actions, visible)));
            Choose(lt, actions, visible, DESCRIBE_ACTION) == Described(names)
            && (name in names <==> Routed(actions, name) && visible(name))
  {
    var shown := VisibleRoutes(actions, visible);
    var keys := Keys(ActionOf, shown);
    SortContents(lt, Self, keys);
    MultisetMembers(keys, SortBy(lt, Self, keys));
    ShownNames(actions, visible, name);
  }

  /** An unknown action is answered with the visible actions, in order. */
  lemma UnknownListsVisible(lt: Order, actions: seq<Route>, visible: string -> bool, action: string, name: string)
    requires StrictTotal(lt) && Choose(lt, actions, visible, action).UnknownAction?
    ensures var available := Choose(lt, actions, visible, action).available;
            && Ascending(lt, Self, available)
            && (name in available <==> Routed(actions, name) && visible(name))
  {
    DescribedNames(lt, actions, visible, name);
    SortAscending(lt, Self, Keys(ActionOf, VisibleRoutes(actions, visible)));
  }

  /** The describe action lists them too, and without a name there is no answer. */
  lemma DescribeListsVisible(lt: Order, actions: seq<Route>, visible: string -> bool, name: string)
    requires StrictTotal(lt)
    ensures Choose(lt, actions, visible, "") == MissingAction
    ensures match Choose(lt, actions, visible, "__describe_actions")
            case Described(names) =>
              Ascending(lt, Self, names) && (name in names <==> Routed(actions, name) && visible(name))
            case _ => false
  {
    DescribedNames(lt, actions, visible, name);
    SortAscending(lt, Self, Keys(ActionOf, VisibleRoutes(actions, visible)));
  }

  lemma ShownNames(actions: seq<Route>, visible: string -> bool, name: string)
    ensures name in Keys(ActionOf, VisibleRoutes(actions, visible)) <==> Routed(actions, name) && visible(name)
  {
    var shown := VisibleRoutes(actions, visible);
    KeysMembers(ActionOf, shown, name);
    if i :| 0 <= i < |shown| && ActionOf(shown[i]) == name {
      VisibleMembers(actions, visible, shown[i]);
    }
    if r :| r in actions && r.action == name && visible(name) {
      VisibleMembers(actions, visible, r);
      var i :| 0 <= i < |shown| && shown[i] == r;
      assert ActionOf(shown[i]) == name;
    }
  }

  // ------------------------------------------------------------------ the name under which a request is judged

  predicate ScopeMatches(pattern: string, serverKey: string) {
    SplitTwo(pattern).0 == WILDCARD || (SplitTwo(pattern).0 != "" && SplitTwo(pattern).0 in PolicyScopes(serverKey))
  }

  /** Some pattern covers every action of the scope. */
  predicate CoversAll(patterns: seq<string>, serverKey: string) {
    exists i :: 0 <= i < |patterns| && ScopeMatches(patterns[i], serverKey) && SplitTwo(patterns[i]).1 == Some(WILDCARD)
  }

  /** Some pattern names the action. */
  predicate NamesAction(patterns: seq<string>, serverKey: string, name: string) {
    name != "" && name != WILDCARD &&
    exists i :: 0 <= i < |patterns| && ScopeMatches(patterns[i], serverKey) && SplitTwo(patterns[i]).1 == Some(name)
  }

  lemma MatchesEitherWay(patterns: seq<string>, serverKey: string, name: string)
    ensures MatchesAnyPattern(patterns, serverKey, name)
            <==> CoversAll(patterns, serverKey) || NamesAction(patterns, serverKey, name)
  {
    if i :| 0 <= i < |patterns| && MatchesPattern(patterns[i], serverKey, name) {
      assert ScopeMatches(patterns[i], serverKey);
    }
    if i :| 0 <= i < |patterns| && ScopeMatches(patterns[i], serverKey) && SplitTwo(patterns[i]).1 == Some(WILDCARD) {
      assert MatchesPattern(patterns[i], serverKey, name);
    }
    if NamesAction(patterns, serverKey, name) {
      var i :| 0 <= i < |patterns| && ScopeMatches(patterns[i], serverKey) && SplitTwo(patterns[i]).1 == Some(name);
      assert MatchesPattern(patterns[i], serverKey, name);
    }
  }

  /** The position of the first list that applies: block, allow, confirm, none. */
  function Rank(block: bool, allow: bool, confirm: bool): nat {
    if block then 0 else if allow then 1 else if confirm then 2 else 3
  }

  function CoverRank(lists: Lists, capability: string): nat {
    Rank(CoversAll(lists.block, capability), CoversAll(lists.allow, capability), CoversAll(lists.confirm, capability))
  }

  function NameRank(lists: Lists, capability: string, name: string): nat {
    Rank(NamesAction(lists.block, capability, name), NamesAction(lists.allow, capability, name),
         NamesAction(lists.confirm, capability, name))
  }

  function GateRank(gate: Gate): nat {
    match gate case Blocked => 0 case Allowed => 1 case NeedsConfirmation => 2 case Unlisted => 3
  }

  lemma GateIsFirst(lists: Lists, capability: string, name: string)
    ensures var cover, named := CoverRank(lists, capability), NameRank(lists, capability, name);
            GateRank(GateFor(lists, capability, name)) == if cover <= named then cover else named
  {
    MatchesEitherWay(lists.block, capability, name);
    MatchesEitherWay(lists.allow, capability, name);
    MatchesEitherWay(lists.confirm, capability, name);
  }

  /**
   * A selected request is judged under the name it came with. That is the judgement on the action of its route exactly
   * when the two names are first named in the same list, or neither is named before the first list that covers all
   * actions.
   */
  lemma JudgedAsItsRoute(
      lt: Order, actions: seq<Route>, visible: string -> bool, action: string, lists: Lists, capability: string)
    requires Choose(lt, actions, visible, action).Selected?
    ensures var Selected(r, name) := Choose(lt, actions, visible, action);
            && (name == r.action || (name == action && name in r.legacyActions))
            && (GateFor(lists, capability, name) == GateFor(lists, capability, r.action) <==>
                  || NameRank(lists, capability, name) == NameRank(lists, capability, r.action)
                  || (CoverRank(lists, capability) <= NameRank(lists, capability, name)
                      && CoverRank(lists, capability) <= NameRank(lists, capability, r.action)))
  {
    var Selected(r, name) := Choose(lt, actions, visible, action);
    ExactAnswers(actions, action);
    GateIsFirst(lists, capability, name);
    GateIsFirst(lists, capability, r.action);
  }

  /**
   * Blocked is the name that a pattern spells, and no other, where all actions are allowed otherwise.
   */
  lemma NamesJudgedApart(capability: string, id: string, alias: string)
    requires ColonFree(capability) && ColonFree(id) && capability != "" && id != "" && alias != id && id != WILDCARD
    ensures var lists := Lists([Qualify(capability, id)], [Qualify(capability, WILDCARD)], []);
            GateFor(lists, capability, id) == Blocked && GateFor(lists, capability, alias) == Allowed
  {
    var named, all := Qualify(capability, id), Qualify(capability, WILDCARD);
    assert named + "" == named && all + "" == all;
    PatternMeaning(capability, id, "", capability, id);
    PatternMeaning(capability, id, "", capability, alias);
    PatternMeaning(capability, WILDCARD, "", capability, alias);
    OnlyPattern(named, capability, id);
    OnlyPattern(named, capability, alias);
    OnlyPattern(all, capability, alias);
  }

  lemma OnlyPattern(pattern: string, capability: string, name: string)
    ensures MatchesAnyPattern([pattern], capability, name) <==> MatchesPattern(pattern, capability, name)
  {
    assert [pattern][0] == pattern;
  }

  /**
   * An evaluation whose confirmation was accepted is preceded by one that issued the token for the same pair, at most
   * five minutes earlier, and no later evaluation can spend that token again.
   */
  lemma ConfirmedOnce(
      ledger: seq<Step>, capability: string, action: string, presented: string, now: int, later: seq<Step>)
    requires AcceptedBy(ledger, Check(presented, capability, action, now))
    requires Orderly(ledger + [Check(presented, capability, action, now)] + later)
    ensures exists i: nat :: IssuedFor(ledger, i, Check(presented, capability, action, now))
    ensures var run := ledger + [Check(presented, capability, action, now)] + later;
            forall j: nat :: |ledger| < j && Accepted(run, j) ==> run[j].token != presented
  {
    var check := Check(presented, capability, action, now);
    var run := ledger + [check] + later;
    assert run[..|ledger|] == ledger && run[|ledger|] == check;
    assert run[..|ledger| + 1] == ledger + [check];
    assert Orderly(ledger + [check]);
    AcceptedExactly(ledger, check);
    forall j: nat | |ledger| < j && Accepted(run, j) ensures run[j].token != presented {
      AcceptedAtMostOnce(run, |ledger|, j);
    }
  }
}
