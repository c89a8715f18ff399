/** What a merge finds and records for every server (src/import/merge/index.ts:203-402). */
module ImportDetection {
  import opened Common
  import opened EnvReferences
  import opened ServerNames
  import opened ServerMapping
  import opened ImportMerge
  import opened ImportTheorems
  import opened ImportRepeats

  // ------------------------------------------------------------------ what a server maps to

  /**
   * A server with a URL, even an empty one, is reached by it, and one without runs a command; without either it maps to
   * nothing.
   */
  lemma MappedExactly(server: External)
    ensures match MapServer(server)
            case None => if server.url.Some? then server.url == Some("")
                         else if server.httpUrl.Some? then server.httpUrl == Some("")
                         else server.command in {None, Some("")}
            case Some(config) =>
              && config.enabled == (server.disabled != Some(true)) && config.labelText == Some(server.name)
              && EnvMapped(server.env, config.env)
              && match config.transport
                 case Stdio(command, args, cwd) =>
                   && server.url == None && server.httpUrl == None && server.command == Some(command) && command != ""
                   && args == (if server.args.Some? then server.args.value else [])
                   && cwd == (if server.cwd == Some("") then None else server.cwd)
                 case Sse(url, headers, auth) =>
                   && url != "" && Some(url) == (if server.url.Some? then server.url else server.httpUrl)
                   && EnvMapped(server.headers, headers) && AuthMapped(server.auth, auth)
  {
  }

  /** Every value is normalised and every key kept. */
  ghost predicate EnvMapped(given: Option<Env>, env: Env) {
    match given
    case None => env == map[]
    case Some(values) =>
      env.Keys == values.Keys && forall k :: k in env ==> env[k] == NormalizeEnvValue(values[k])
  }

  predicate AuthMapped(given: Option<ExternalAuth>, auth: Option<Auth>) {
    match given
    case None => auth == None
    case Some(Switch(on)) => auth == Some(Enabled(on))
    case Some(OAuth(port, client)) =>
      auth == Some(Client(if port.Some? then port.value else 8089,
                          if client.Some? then client.value else "MCP\U{00B2}"))
  }

  // ------------------------------------------------------------------ what detection finds

  lemma OneGrowsInSync(lower: Lower, existing: Upstreams, d: Detection, x: Incoming)
    ensures d.inSync <= DetectOne(lower, existing, d, x).inSync
  {
    match Judge(lower, existing, d.owners, x)
    case Synced => assert d.inSync <= d.inSync + [InSync(NameOf(lower, x), x.source)];
    case _ =>
  }

  lemma {:induction false} InSyncGrows(lower: Lower, existing: Upstreams, incoming: seq<Incoming>, k: nat)
    requires k <= |incoming|
    ensures Detect(lower, existing, incoming[..k]).inSync <= Detect(lower, existing, incoming).inSync
  {
    if k == |incoming| {
      assert incoming[..k] == incoming;
    } else {
      var init := incoming[..|incoming| - 1];
      InSyncGrows(lower, existing, init, k);
      assert init[..k] == incoming[..k];
      OneGrowsInSync(lower, existing, Detect(lower, existing, init), incoming[|incoming| - 1]);
    }
  }

  /** What is recorded for a server, given who holds names at that point. */
  ghost predicate Recorded(lower: Lower, existing: Upstreams, early: Detection, d: Detection, x: Incoming) {
    var name := NameOf(lower, x);
    match Judge(lower, existing, early.owners, x)
    case Unmapped => MapServer(x.server) == None
    case Synced =>
      && MapServer(x.server).Some? && name in existing && AreConfigsEqual(existing[name], MapServer(x.server).value)
      && InSync(name, x.source) in d.inSync
    case WithExisting =>
      && MapServer(x.server).Some? && name in existing && !AreConfigsEqual(existing[name], MapServer(x.server).value)
      && Conflict(name, ToExternal(name, existing[name]), x.server, x.source, None) in d.conflicts
    case WithIncoming =>
      && MapServer(x.server).Some? && name !in existing && name in early.owners
      && Conflict(name, early.owners[name].server, x.server, x.source, Some(early.owners[name].source)) in d.conflicts
    case New =>
      && MapServer(x.server).Some? && name !in existing && name !in early.owners
      && Fresh(MapServer(x.server).value, x.source, x.server.name) in d.noConflict
  }

  lemma RecordedNow(lower: Lower, existing: Upstreams, early: Detection, x: Incoming)
    ensures Recorded(lower, existing, early, DetectOne(lower, existing, early, x), x)
  {
  }

  lemma RecordedStays(
      lower: Lower, existing: Upstreams, early: Detection, next: Detection, d: Detection, x: Incoming)
    requires Recorded(lower, existing, early, next, x)
    requires next.inSync <= d.inSync && next.conflicts <= d.conflicts && next.noConflict <= d.noConflict
    ensures Recorded(lower, existing, early, d, x)
  {
  }

  /** Every server is recorded as what it was judged to be. */
  lemma {:induction false} RecordedAt(lower: Lower, existing: Upstreams, incoming: seq<Incoming>, k: nat)
    requires k < |incoming|
    ensures Recorded(lower, existing, Detect(lower, existing, incoming[..k]), Detect(lower, existing, incoming),
                     incoming[k])
  {
    var early := Detect(lower, existing, incoming[..k]);
    RecordedNow(lower, existing, early, incoming[k]);
    DetectUpTo(lower, existing, incoming, k);
    DetectionGrows(lower, existing, incoming, k + 1);
    InSyncGrows(lower, existing, incoming, k + 1);
    RecordedStays(lower, existing, early, Detect(lower, existing, incoming[..k + 1]),
                  Detect(lower, existing, incoming), incoming[k]);
  }

  /** The holder of a name is the first new server that had it. */
  lemma {:induction false} HolderIsFirst(lower: Lower, existing: Upstreams, incoming: seq<Incoming>, name: string)
    returns (k: nat)
    requires name in Detect(lower, existing, incoming).owners
    ensures k < |incoming| && VerdictAt(lower, existing, incoming, k).New?
    ensures NameOf(lower, incoming[k]) == name && Detect(lower, existing, incoming).owners[name] == incoming[k]
  {
    var init, x := incoming[..|incoming| - 1], incoming[|incoming| - 1];
    if name in Detect(lower, existing, init).owners {
      k := HolderIsFirst(lower, existing, init, name);
      assert init[..k] == incoming[..k];
      OwnerKept(lower, existing, Detect(lower, existing, init), x, name);
    } else {
      k := |init|;
    }
  }

  /** How many servers cannot be mapped. */
  function UnmappedCount(incoming: seq<Incoming>): nat {
    if incoming == [] then 0
    else
      UnmappedCount(incoming[..|incoming| - 1])
      + (if MapServer(incoming[|incoming| - 1].server) == None then 1 else 0)
  }

  /** Nothing else is recorded: together the lists have one entry for each server that can be mapped. */
  lemma {:induction false} NothingElseIsRecorded(lower: Lower, existing: Upstreams, incoming: seq<Incoming>)
    ensures var d := Detect(lower, existing, incoming);
            |d.inSync| + |d.conflicts| + |d.noConflict| + UnmappedCount(incoming) == |incoming|
  {
    if incoming != [] {
      var init, x := incoming[..|incoming| - 1], incoming[|incoming| - 1];
      NothingElseIsRecorded(lower, existing, init);
      OneEntry(lower, existing, Detect(lower, existing, init), x);
    }
  }

  lemma OneEntry(lower: Lower, existing: Upstreams, d: Detection, x: Incoming)
    ensures var next := DetectOne(lower, existing, d, x);
            |next.inSync| + |next.conflicts| + |next.noConflict|
            == |d.inSync| + |d.conflicts| + |d.noConflict| + if MapServer(x.server) == None then 0 else 1
  {
  }

  // ------------------------------------------------------------------ what the changes say

  function KindFor(strategy: Strategy): Kind {
    match strategy
    case Skip => Skipped
    case Replace => Update
    case Rename => Renamed
  }

  /** The change for a conflict is of the kind that was chosen for its name, and is about its server. */
  ghost predicate ChangeFor(lower: Lower, c: Conflict, strategy: Strategy, change: Change) {
    && change.kind == KindFor(strategy) && change.server == c.incoming && change.source == c.source
    && (strategy != Rename ==> change.serverName == NormalizeServerName(lower, c.incoming.name))
    && change.originalName == if strategy == Rename then Some(NormalizeServerName(lower, c.incoming.name)) else None
  }

  ghost predicate ChangesFor(
      lower: Lower, conflicts: seq<Conflict>, choose: string -> Strategy, changes: seq<Change>)
  {
    && |changes| == |conflicts|
    && forall i :: 0 <= i < |changes| ==>
         ChangeFor(lower, conflicts[i], choose(conflicts[i].serverName), changes[i])
  }

  lemma ChangesForFirst(
      lower: Lower, conflicts: seq<Conflict>, choose: string -> Strategy, change: Change, rest: seq<Change>)
    requires conflicts != [] && ChangesFor(lower, conflicts[1..], choose, rest)
    requires ChangeFor(lower, conflicts[0], choose(conflicts[0].serverName), change)
    ensures ChangesFor(lower, conflicts, choose, [change] + rest)
  {
  }

  lemma {:induction false} ResolvedChanges(
      lower: Lower, conflicts: seq<Conflict>, choose: string -> Strategy, names: set<string>, rs: seq<Change>)
    requires ResolveAll(lower, conflicts, choose, names) == Some(rs)
    ensures ChangesFor(lower, conflicts, choose, rs)
  {
    if conflicts != [] {
      var change, more, rest := ResolveSplit(lower, conflicts, choose, names, rs);
      ResolvedChanges(lower, conflicts[1..], choose, more, rest);
      ChangesForFirst(lower, conflicts, choose, change, rest);
    }
  }

  ghost predicate AllMappable(changes: seq<Change>) {
    forall i :: 0 <= i < |changes| ==> MapServer(changes[i].server).Some?
  }

  lemma {:induction false} MappableWarnNothing(changes: seq<Change>)
    requires AllMappable(changes)
    ensures Warnings(changes) == []
  {
    if changes != [] {
      MappableWarnNothing(changes[..|changes| - 1]);
    }
  }

  lemma ConflictsMappable(lower: Lower, existing: Upstreams, incoming: seq<Incoming>, choose: string -> Strategy,
                          rs: seq<Change>)
    requires ChangesFor(lower, Detect(lower, existing, incoming).conflicts, choose, rs)
    ensures AllMappable(rs)
  {
    ConflictsNamed(lower, existing, incoming);
  }

  lemma AddsMappable(lower: Lower, existing: Upstreams, incoming: seq<Incoming>)
    ensures AllMappable(AddsOf(lower, existing, incoming))
  {
    DetectShape(lower, existing, incoming);
    AddsStore(lower, existing, Detect(lower, existing, incoming));
  }

  /**
   * Whatever is chosen, the changes of a merge are one for each new server and then one for each conflict, of the kind
   * chosen for its name; and no merge ever warns, because what cannot be mapped was left out before.
   */
  lemma {:induction false} MergeRecords(
      lower: Lower, existing: Upstreams, incoming: seq<Incoming>, choose: string -> Strategy, m: Merged)
    returns (adds: seq<Change>, rs: seq<Change>)
    requires Merge(lower, existing, incoming, choose) == Some(m)
    ensures m.changes == adds + rs && m.warnings == []
    ensures AddsFor(lower, Detect(lower, existing, incoming).noConflict, adds)
    ensures ChangesFor(lower, Detect(lower, existing, incoming).conflicts, choose, rs)
    ensures m.conflicts == Detect(lower, existing, incoming).conflicts
    ensures m.inSync == Detect(lower, existing, incoming).inSync
  {
    MergeParts(lower, existing, incoming, choose);
    adds, rs := AddsOf(lower, existing, incoming), Resolutions(lower, existing, incoming, choose).value;
    AddsSpelled(lower, Detect(lower, existing, incoming).noConflict);
    ResolvedChanges(lower, Detect(lower, existing, incoming).conflicts, choose, NamesOf(lower, existing, incoming), rs);
    ConflictsMappable(lower, existing, incoming, choose, rs);
    AddsMappable(lower, existing, incoming);
    ConcatMappable(adds, rs);
    MappableWarnNothing(adds + rs);
  }

  /** The change for a new server adds what its config says under its normalised name. */
  ghost predicate AddsFor(lower: Lower, items: seq<Fresh>, changes: seq<Change>) {
    && |changes| == |items|
    && forall i :: 0 <= i < |items| ==>
         var name := NormalizeServerName(lower, items[i].originalName);
         changes[i] == Change(Add, name, None, items[i].source, ToExternal(name, items[i].config))
  }

  lemma AddsSpelled(lower: Lower, items: seq<Fresh>)
    ensures AddsFor(lower, items, Adds(lower, items))
  {
  }

  lemma ConcatMappable(a: seq<Change>, b: seq<Change>)
    requires AllMappable(a) && AllMappable(b)
    ensures AllMappable(a + b)
  {
  }

  /** The groups come one after the other, each server with the source of its group. */
  lemma FlattenAppends(groups: seq<Group>, g: Group)
    ensures var before, all := Flatten(groups), Flatten(groups + [g]);
            && |all| == |before| + |g.servers| && before <= all
            && forall i :: 0 <= i < |g.servers| ==> all[|before| + i] == Incoming(g.servers[i], g.source)
  {
    assert (groups + [g])[..|groups|] == groups;
  }

  /** A name for which no strategy is chosen keeps what it holds. */
  lemma {:induction false} UnchosenStays(
      lower: Lower, existing: Upstreams, incoming: seq<Incoming>, resolutions: map<string, Strategy>, m: Merged,
      n: string)
    requires Merge(lower, existing, incoming, Chosen(resolutions)) == Some(m) && n !in resolutions
    requires n in existing || n in Detect(lower, existing, incoming).owners
    ensures At(m.upstreams, n) == HeldBefore(existing, Detect(lower, existing, incoming), n)
  {
    MergeHolds(lower, existing, incoming, Chosen(resolutions), m, n);
  }

  /** A name for which replacing is chosen holds the server of its last conflict. */
  lemma {:induction false} ChosenReplaces(
      lower: Lower, existing: Upstreams, incoming: seq<Incoming>, resolutions: map<string, Strategy>, m: Merged,
      n: string)
    requires Merge(lower, existing, incoming, Chosen(resolutions)) == Some(m)
    requires n in resolutions && resolutions[n] == Replace
    requires n in existing || n in Detect(lower, existing, incoming).owners
    requires LastConflict(Detect(lower, existing, incoming).conflicts, n).Some?
    ensures At(m.upstreams, n) == MapServer(LastConflict(Detect(lower, existing, incoming).conflicts, n).value)
  {
    MergeHolds(lower, existing, incoming, Chosen(resolutions), m, n);
  }
}
