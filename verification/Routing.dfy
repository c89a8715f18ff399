/** The routing table (src/capabilities/routing.ts:137-308) as a function of the inventories. */
module Routing {
  import opened Common
  import opened Sorting
  import opened Grouping
  import opened Tokens
  import opened ActionIds

  /** toLowerCase and localeCompare. */
  datatype Locale = Locale(lower: string -> string, lt: Order)

  /** `detail` carries the input schema and the summary, which routing passes on untouched. */
  datatype Tool = Tool(name: string, detail: string)

  datatype Inventory = Inventory(namespace: string, title: string, tools: seq<Tool>)

  datatype Route = Route(
    capability: string,
    action: string,
    baseAction: string,
    instanceKey: string,
    instanceTitle: string,
    toolName: string,
    qualifiedName: string,
    collisionGroupSize: nat,
    legacyActions: seq<string>,
    detail: string)

  datatype Router = Router(capability: string, actions: seq<Route>)

  const DESCRIBE_ACTION := "__describe_actions"

  const RESERVED_ACTION := "__describe_actions__tool"

  function ToolNameOf(t: Tool): string { t.name }

  function NamespaceOf(i: Inventory): string { i.namespace }

  function CapabilityOf(r: Route): string { r.capability }

  function ActionOf(r: Route): string { r.action }

  function InstanceOf(r: Route): string { r.instanceKey }

  function QualifiedOf(r: Route): string { r.qualifiedName }

  /** `${capability}:${baseAction}` */
  function GroupOf(r: Route): string { r.capability + ":" + r.baseAction }

  // ------------------------------------------------------------------ candidates

  function Qualify(namespace: string, tool: string): string {
    namespace + ":" + tool
  }

  function BaseAction(lower: string -> string, name: string): string {
    var token := ToActionToken(lower, name);
    if token == DESCRIBE_ACTION || token == ToActionToken(lower, DESCRIBE_ACTION) then RESERVED_ACTION else token
  }

  function Candidate(loc: Locale, capability: string, inventory: Inventory, tool: Tool): Route {
    var base := BaseAction(loc.lower, tool.name);
    Route(capability, base, base, inventory.namespace, inventory.title, tool.name,
          Qualify(inventory.namespace, tool.name), 1, [], tool.detail)
  }

  function CandidatesOf(loc: Locale, capability: string, inventory: Inventory, tools: seq<Tool>): seq<Route> {
    if tools == [] then []
    else [Candidate(loc, capability, inventory, tools[0])] + CandidatesOf(loc, capability, inventory, tools[1..])
  }

  function CapabilityFor(grouping: map<string, string>, namespace: string): string {
    if namespace in grouping then grouping[namespace] else "general"
  }

  function Candidates(loc: Locale, grouping: map<string, string>, inventories: seq<Inventory>): seq<Route> {
    if inventories == [] then []
    else
      var first := inventories[0];
      CandidatesOf(loc, CapabilityFor(grouping, first.namespace), first, SortBy(loc.lt, ToolNameOf, first.tools))
      + Candidates(loc, grouping, inventories[1..])
  }

  // ------------------------------------------------------------------ one collision group

  /** How many earlier instance keys share the token of the i-th. */
  function Rank(loc: Locale, ks: seq<string>, i: nat): nat
    requires i < |ks|
  {
    CountToken(loc, ks[..i], ToActionToken(loc.lower, ks[i]))
  }

  function CountToken(loc: Locale, ks: seq<string>, token: string): nat {
    if ks == [] then 0
    else
      CountToken(loc, ks[..|ks| - 1], token)
      + (if ToActionToken(loc.lower, ks[|ks| - 1]) == token then 1 else 0)
  }

  /** The token of the i-th instance key, numbered if earlier keys have the same one. */
  function InstanceToken(loc: Locale, ks: seq<string>, i: nat): string
    requires i < |ks|
  {
    var token := ToActionToken(loc.lower, ks[i]);
    if Rank(loc, ks, i) == 0 then token else Numbered(token, Rank(loc, ks, i) + 1)
  }

  function EmitIds(taken: set<string>, base: string, count: nat, index: nat): (ids: seq<string>)
    ensures |ids| == if index < count then count - index else 0
    decreases if index < count then count - index else 0
  {
    if index >= count then []
    else
      var id := Allocate(taken, base, index);
      [id] + EmitIds(taken + {id}, base, count, index + 1)
  }

  /** The position of the last record with the given qualified name, as the later Map.set wins. */
  function LastIndex(records: seq<Route>, qualifiedName: string): (i: int)
    ensures -1 <= i < |records|
  {
    if records == [] then -1
    else if records[|records| - 1].qualifiedName == qualifiedName then |records| - 1
    else LastIndex(records[..|records| - 1], qualifiedName)
  }

  function Legacy(records: seq<Route>, qualifiedName: string): seq<string> {
    var i := LastIndex(records, qualifiedName);
    if i <= 0 then [] else [Numbered(records[i].baseAction, i + 1)]
  }

  function Stamp(records: seq<Route>, mine: seq<Route>, ids: seq<string>): (r: seq<Route>)
    requires |ids| == |mine|
    ensures |r| == |mine|
    ensures forall j :: 0 <= j < |r| ==>
              r[j] == mine[j].(action := ids[j], collisionGroupSize := |records|,
                               legacyActions := Legacy(records, mine[j].qualifiedName))
  {
    seq(|mine|, j requires 0 <= j < |mine| =>
          mine[j].(action := ids[j], collisionGroupSize := |records|,
                   legacyActions := Legacy(records, mine[j].qualifiedName)))
  }

  /** The routes of the instances from the i-th on; `taken` are the identifiers of the earlier ones. */
  function Emit(loc: Locale, records: seq<Route>, ks: seq<string>, i: nat, taken: set<string>): seq<Route>
    requires i <= |ks| && records != []
    decreases |ks| - i
  {
    if i == |ks| then []
    else
      var mine := Select(InstanceOf, records, ks[i]);
      var ids := EmitIds(taken, Joined(records[0].baseAction, InstanceToken(loc, ks, i)), |mine|, 0);
      Stamp(records, mine, ids) + Emit(loc, records, ks, i + 1, taken + Elements(ids))
  }

  function Single(r: Route): Route {
    r.(action := r.baseAction, collisionGroupSize := 1, legacyActions := [])
  }

  function ResolveGroup(loc: Locale, records: seq<Route>): seq<Route>
    requires records != []
  {
    if |records| == 1 then [Single(records[0])]
    else Emit(loc, records, SortedKeys(loc.lt, InstanceOf, records), 0, {})
  }

  // ------------------------------------------------------------------ the table

  function GroupRecords(loc: Locale, candidates: seq<Route>, key: string): seq<Route> {
    SortBy(loc.lt, QualifiedOf, Select(GroupOf, candidates, key))
  }

  function ResolveGroups(loc: Locale, candidates: seq<Route>, keys: seq<string>): seq<Route> {
    if keys == [] then []
    else
      var records := GroupRecords(loc, candidates, keys[0]);
      (if records == [] then [] else ResolveGroup(loc, records)) + ResolveGroups(loc, candidates, keys[1..])
  }

  function Resolved(loc: Locale, candidates: seq<Route>): seq<Route> {
    ResolveGroups(loc, candidates, SortedKeys(loc.lt, GroupOf, candidates))
  }

  function RoutersFor(loc: Locale, routes: seq<Route>, capabilities: seq<string>): seq<Router> {
    if capabilities == [] then []
    else
      [Router(capabilities[0], SortBy(loc.lt, ActionOf, Select(CapabilityOf, routes, capabilities[0])))]
      + RoutersFor(loc, routes, capabilities[1..])
  }

  function Routers(loc: Locale, routes: seq<Route>): seq<Router> {
    RoutersFor(loc, routes, SortedKeys(loc.lt, CapabilityOf, routes))
  }

  function BuildRouters(loc: Locale, grouping: map<string, string>, inventories: seq<Inventory>): seq<Router> {
    Routers(loc, Resolved(loc, Candidates(loc, grouping, inventories)))
  }

  /** All routes of all routers. */
  function AllRoutes(routers: seq<Router>): seq<Route> {
    if routers == [] then [] else routers[0].actions + AllRoutes(routers[1..])
  }
}
