/**
 * Qualified tool names (src/utils/tool-names.ts) and their resolution against connections (src/upstream/cataloger.ts).
 */
module ToolNames {
  import opened Common
  import opened Routing
  import Sorting
  import opened RoutingTable

  datatype ParsedToolName = ParsedToolName(serverKey: Option<string>, toolName: string)

  /** The position of the first colon, or -1. */
  function IndexOfColon(s: string): (i: int)
    ensures -1 <= i < |s|
    ensures i == -1 <==> ColonFree(s)
    ensures i >= 0 ==> s[i] == ':' && ColonFree(s[..i])
  {
    if s == "" then -1
    else if s[0] == ':' then 0
    else
      var i := IndexOfColon(s[1..]);
      assert s == [s[0]] + s[1..];
      if i == -1 then -1 else i + 1
  }

  function ParseQualifiedName(input: string): ParsedToolName {
    var colonIndex := IndexOfColon(input);
    if colonIndex == -1 then ParsedToolName(None, input)
    else ParsedToolName(Some(input[..colonIndex]), input[colonIndex + 1..])
  }

  /** Formatting and parsing are inverse exactly for server keys without a colon. */
  lemma QualifiedRoundTrip(serverKey: string, toolName: string)
    ensures ParseQualifiedName(Qualify(serverKey, toolName)) == ParsedToolName(Some(serverKey), toolName)
            <==> ColonFree(serverKey)
  {
    var s := Qualify(serverKey, toolName);
    assert s[|serverKey|] == ':';
    var i := IndexOfColon(s);
    if ColonFree(serverKey) {
      assert forall k :: 0 <= k < |serverKey| ==> s[k] == serverKey[k];
      assert i == |serverKey|;
      assert s[..i] == serverKey && s[i + 1..] == toolName;
    } else {
      var k :| 0 <= k < |serverKey| && serverKey[k] == ':';
      assert s[k] == ':';
      assert i <= k;
    }
  }

  /** Whatever is parsed as qualified formats back to itself. */
  lemma ParsedFormatsBack(input: string)
    ensures var p := ParseQualifiedName(input);
            match p.serverKey case Some(key) => Qualify(key, p.toolName) == input && ColonFree(key)
                              case None => p.toolName == input && ColonFree(input)
  {
    var i := IndexOfColon(input);
    if i >= 0 {
      assert input == input[..i] + [input[i]] + input[i + 1..];
    }
  }

  datatype Connection = Connection(connected: bool, tools: seq<Tool>)

  datatype FindResult = Found(serverKey: string, tool: Tool) | NotFound | AmbiguousName(alternatives: seq<string>)

  /** tools.find((t) => t.name === name) */
  function FindByName(tools: seq<Tool>, name: string): Option<Tool> {
    if tools == [] then None
    else if tools[0].name == name then Some(tools[0])
    else FindByName(tools[1..], name)
  }

  /** The server keys and tools with the given bare name, over the connected servers in order. */
  function FindToolsByName(
      order: seq<string>, connections: map<string, Connection>, name: string): seq<(string, Tool)>
  {
    if order == [] then []
    else
      var rest := FindToolsByName(order[1..], connections, name);
      if order[0] in connections && connections[order[0]].connected then
        match FindByName(connections[order[0]].tools, name)
        case Some(tool) => [(order[0], tool)] + rest
        case None => rest
      else rest
  }

  function Alternatives(matches: seq<(string, Tool)>): seq<string> {
    if matches == [] then [] else [Qualify(matches[0].0, matches[0].1.name)] + Alternatives(matches[1..])
  }

  function FindTool(order: seq<string>, connections: map<string, Connection>, name: string): FindResult {
    var parsed := ParseQualifiedName(name);
    match parsed.serverKey
    case Some(key) =>
      if key !in connections || !connections[key].connected then NotFound
      else
        (match FindByName(connections[key].tools, parsed.toolName)
         case Some(tool) => Found(key, tool)
         case None => NotFound)
    case None =>
      var matches := FindToolsByName(order, connections, parsed.toolName);
      if |matches| == 0 then NotFound
      else if |matches| == 1 then Found(matches[0].0, matches[0].1)
      else AmbiguousName(Alternatives(matches))
  }

  lemma {:induction false} FindByNameFirst(tools: seq<Tool>, t: Tool)
    requires t in tools && Sorting.DistinctKeys(ToolNameOf, tools)
    ensures FindByName(tools, t.name) == Some(t)
  {
    if tools[0] != t {
      var k :| 0 <= k < |tools| && tools[k] == t;
      assert ToolNameOf(tools[0]) != ToolNameOf(tools[k]);
      assert tools[1..][k - 1] == t;
      FindByNameFirst(tools[1..], t);
    }
  }

  /** A tool of a connected server with a colon-free key is found under its qualified name. */
  lemma QualifiedNameResolves(order: seq<string>, connections: map<string, Connection>, key: string, t: Tool)
    requires ColonFree(key) && key in connections && connections[key].connected
    requires t in connections[key].tools && Sorting.DistinctKeys(ToolNameOf, connections[key].tools)
    ensures FindTool(order, connections, Qualify(key, t.name)) == Found(key, t)
  {
    QualifiedRoundTrip(key, t.name);
    FindByNameFirst(connections[key].tools, t);
  }

  /** The connected server has a tool of that name, and this is the first. */
  predicate Offers(connections: map<string, Connection>, key: string, name: string, tool: Tool) {
    key in connections && connections[key].connected && FindByName(connections[key].tools, name) == Some(tool)
  }

  /** The first tool with the name. */
  lemma {:induction false} FindByNameExactly(tools: seq<Tool>, name: string)
    ensures match FindByName(tools, name)
            case Some(tool) =>
              exists k :: 0 <= k < |tools| && tools[k] == tool && tool.name == name
                          && forall j :: 0 <= j < k ==> tools[j].name != name
            case None => forall tool :: tool in tools ==> tool.name != name
  {
    if tools != [] {
      FindByNameExactly(tools[1..], name);
      if tools[0].name != name {
        match FindByName(tools[1..], name)
        case Some(tool) =>
          var k :| 0 <= k < |tools[1..]| && tools[1..][k] == tool && tool.name == name
                   && forall j :: 0 <= j < k ==> tools[1..][j].name != name;
          assert tools[k + 1] == tool;
          forall j | 0 <= j < k + 1 ensures tools[j].name != name {
            assert j > 0 ==> tools[j] == tools[1..][j - 1];
          }
        case None =>
          assert tools == [tools[0]] + tools[1..];
      } else {
        assert tools[0] == FindByName(tools, name).value;
      }
    }
  }

  predicate Listed(matches: seq<(string, Tool)>, key: string, tool: Tool) {
    (key, tool) in matches
  }

  /** The matches are the offers of the servers. */
  ghost predicate AreOffers(
      order: seq<string>, connections: map<string, Connection>, name: string, matches: seq<(string, Tool)>)
  {
    forall key, tool :: Listed(matches, key, tool) <==> key in order && Offers(connections, key, name, tool)
  }

  /** The qualified name of what some server offers. */
  ghost predicate OfferedAs(order: seq<string>, connections: map<string, Connection>, name: string, x: string) {
    exists key, tool :: key in order && Offers(connections, key, name, tool) && x == key + ":" + name
  }

  ghost predicate AllAlternatives(
      order: seq<string>, connections: map<string, Connection>, name: string, alternatives: seq<string>)
  {
    forall x :: x in alternatives <==> OfferedAs(order, connections, name, x)
  }

  ghost predicate NoOffer(order: seq<string>, connections: map<string, Connection>, name: string) {
    forall key, tool :: key in order ==> !Offers(connections, key, name, tool)
  }

  ghost predicate OnlyOffer(order: seq<string>, connections: map<string, Connection>, name: string, key: string) {
    forall k, t :: k in order && Offers(connections, k, name, t) ==> k == key
  }

  ghost predicate SeveralOffer(order: seq<string>, connections: map<string, Connection>, name: string) {
    exists j, k, t, u ::
      j in order && k in order && j != k && Offers(connections, j, name, t) && Offers(connections, k, name, u)
  }

  lemma {:induction false} MatchesAreOffers(
      order: seq<string>, connections: map<string, Connection>, name: string, key: string, tool: Tool)
    ensures Listed(FindToolsByName(order, connections, name), key, tool)
            <==> key in order && Offers(connections, key, name, tool)
  {
    if order != [] {
      MatchesAreOffers(order[1..], connections, name, key, tool);
      assert order == [order[0]] + order[1..];
    }
  }

  lemma {:induction false} AlternativesAreMatches(matches: seq<(string, Tool)>, x: string)
    ensures x in Alternatives(matches) <==>
            exists i :: 0 <= i < |matches| && x == Qualify(matches[i].0, matches[i].1.name)
  {
    if matches != [] {
      AlternativesAreMatches(matches[1..], x);
      if i :| 0 <= i < |matches[1..]| && x == Qualify(matches[1..][i].0, matches[1..][i].1.name) {
        assert matches[i + 1] == matches[1..][i];
      }
      if i :| 0 <= i < |matches| && x == Qualify(matches[i].0, matches[i].1.name) {
        assert i > 0 ==> matches[1..][i - 1] == matches[i];
      }
    }
  }

  /** No server is listed twice among the matches. */
  lemma {:induction false} MatchesDistinct(order: seq<string>, connections: map<string, Connection>, name: string)
    requires NoDuplicates(order)
    ensures var matches := FindToolsByName(order, connections, name);
            forall i, j :: 0 <= i < j < |matches| ==> matches[i].0 != matches[j].0
  {
    if order != [] {
      MatchesDistinct(order[1..], connections, name);
      var rest := FindToolsByName(order[1..], connections, name);
      forall i | 0 <= i < |rest| ensures rest[i].0 != order[0] {
        MatchesAreOffers(order[1..], connections, name, rest[i].0, rest[i].1);
        assert rest[i] == (rest[i].0, rest[i].1) && rest[i] in rest;
      }
    }
  }

  /**
   * A bare name finds a tool exactly when one connected server offers it; with none it is not found, and with several
   * the qualified names of all are given.
   */
  lemma BareNameExactly(order: seq<string>, connections: map<string, Connection>, name: string)
    requires ColonFree(name) && NoDuplicates(order)
    ensures var r := FindTool(order, connections, name);
            if r.Found? then
              && r.serverKey in order && Offers(connections, r.serverKey, name, r.tool)
              && OnlyOffer(order, connections, name, r.serverKey)
            else if r.NotFound? then NoOffer(order, connections, name)
            else SeveralOffer(order, connections, name) && AllAlternatives(order, connections, name, r.alternatives)
  {
    var matches := FindToolsByName(order, connections, name);
    forall key, tool
      ensures Listed(matches, key, tool) <==> key in order && Offers(connections, key, name, tool)
    {
      MatchesAreOffers(order, connections, name, key, tool);
    }
    MatchesDistinct(order, connections, name);
    BareNameOutcome(order, connections, name, matches);
  }

  lemma OfferedName(connections: map<string, Connection>, key: string, name: string, tool: Tool)
    requires Offers(connections, key, name, tool)
    ensures tool.name == name
  {
    FindByNameExactly(connections[key].tools, name);
  }

  lemma MatchIsOffer(
      order: seq<string>, connections: map<string, Connection>, name: string, matches: seq<(string, Tool)>, i: nat)
    requires AreOffers(order, connections, name, matches)
    requires i < |matches|
    ensures matches[i].0 in order && Offers(connections, matches[i].0, name, matches[i].1) && matches[i].1.name == name
  {
    assert (matches[i].0, matches[i].1) == matches[i];
    assert Listed(matches, matches[i].0, matches[i].1);
    OfferedName(connections, matches[i].0, name, matches[i].1);
  }

  lemma BareNameOutcome(
      order: seq<string>, connections: map<string, Connection>, name: string, matches: seq<(string, Tool)>)
    requires ColonFree(name) && matches == FindToolsByName(order, connections, name)
    requires AreOffers(order, connections, name, matches)
    requires forall i, j :: 0 <= i < j < |matches| ==> matches[i].0 != matches[j].0
    ensures var r := FindTool(order, connections, name);
            if r.Found? then
              && r.serverKey in order && Offers(connections, r.serverKey, name, r.tool)
              && OnlyOffer(order, connections, name, r.serverKey)
            else if r.NotFound? then NoOffer(order, connections, name)
            else SeveralOffer(order, connections, name) && AllAlternatives(order, connections, name, r.alternatives)
  {
    if |matches| >= 1 {
      MatchIsOffer(order, connections, name, matches, 0);
    }
    if |matches| == 0 {
      forall key, tool | key in order ensures !Offers(connections, key, name, tool) {
        assert !Listed(matches, key, tool);
      }
    } else if |matches| == 1 {
      forall k, t | k in order && Offers(connections, k, name, t) ensures k == matches[0].0 {
        assert Listed(matches, k, t);
      }
    } else {
      MatchIsOffer(order, connections, name, matches, 1);
      assert matches[0].0 != matches[1].0;
      forall x ensures x in Alternatives(matches) <==> OfferedAs(order, connections, name, x) {
        AlternativeExactly(order, connections, name, matches, x);
      }
    }
  }

  lemma AlternativeExactly(
      order: seq<string>, connections: map<string, Connection>, name: string, matches: seq<(string, Tool)>, x: string)
    requires AreOffers(order, connections, name, matches)
    ensures x in Alternatives(matches) <==> OfferedAs(order, connections, name, x)
  {
    AlternativesAreMatches(matches, x);
    if i :| 0 <= i < |matches| && x == Qualify(matches[i].0, matches[i].1.name) {
      MatchIsOffer(order, connections, name, matches, i);
    }
    if k, t :| k in order && Offers(connections, k, name, t) && x == k + ":" + name {
      assert Listed(matches, k, t);
      var i :| 0 <= i < |matches| && matches[i] == (k, t);
      OfferedName(connections, k, name, t);
    }
  }

  /** A qualified name is looked up on its server alone: found there, or not found. */
  lemma QualifiedExactly(order: seq<string>, connections: map<string, Connection>, key: string, name: string)
    requires ColonFree(key)
    ensures var r := FindTool(order, connections, Qualify(key, name));
            if r.Found? then r.serverKey == key && Offers(connections, key, name, r.tool)
            else r.NotFound? && forall tool :: !Offers(connections, key, name, tool)
  {
    QualifiedRoundTrip(key, name);
  }
}
