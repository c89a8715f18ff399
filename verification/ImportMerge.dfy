/** Merging external servers into the configured upstreams (src/import/merge/index.ts). */
module ImportMerge {
  import opened Common
  import opened ServerNames
  import opened ServerMapping

  type Upstreams = map<string, Upstream>

  type Lower = string -> string

  datatype Strategy = Skip | Replace | Rename

  /** `source` stands for the tool and the path of the file. */
  datatype Group = Group(source: string, servers: seq<External>)

  datatype Incoming = Incoming(server: External, source: string)

  datatype Fresh = Fresh(config: Upstream, source: string, originalName: string)

  datatype Conflict = Conflict(
    serverName: string, existing: External, incoming: External, source: string, rival: Option<string>)

  datatype InSync = InSync(serverName: string, source: string)

  datatype Detection = Detection(
    owners: map<string, Incoming>,
    noConflict: seq<Fresh>,
    conflicts: seq<Conflict>,
    inSync: seq<InSync>)

  datatype Kind = Add | Update | Renamed | Skipped

  datatype Change = Change(
    kind: Kind, serverName: string, originalName: Option<string>, source: string, server: External)

  datatype Merged = Merged(
    upstreams: Upstreams,
    changes: seq<Change>,
    conflicts: seq<Conflict>,
    inSync: seq<InSync>,
    warnings: seq<string>)

  // ------------------------------------------------------------------ detection

  /** The servers of all groups, one after the other. */
  function Flatten(groups: seq<Group>): seq<Incoming> {
    if groups == [] then []
    else Flatten(groups[..|groups| - 1]) + FromGroup(groups[|groups| - 1].source, groups[|groups| - 1].servers)
  }

  function FromGroup(source: string, servers: seq<External>): seq<Incoming> {
    seq(|servers|, i requires 0 <= i < |servers| => Incoming(servers[i], source))
  }

  function NameOf(lower: Lower, x: Incoming): string {
    NormalizeServerName(lower, x.server.name)
  }

  datatype Verdict = Unmapped | Synced | WithExisting | WithIncoming | New

  /** What becomes of an incoming server, given the names that earlier incoming servers hold. */
  function Judge(lower: Lower, existing: Upstreams, owners: map<string, Incoming>, x: Incoming): Verdict {
    var name := NameOf(lower, x);
    match MapServer(x.server)
    case None => Unmapped
    case Some(config) =>
      if name in existing then if AreConfigsEqual(existing[name], config) then Synced else WithExisting
      else if name in owners then WithIncoming
      else New
  }

  function DetectOne(lower: Lower, existing: Upstreams, d: Detection, x: Incoming): Detection {
    var name := NameOf(lower, x);
    match Judge(lower, existing, d.owners, x)
    case Unmapped => d
    case Synced => d.(inSync := d.inSync + [InSync(name, x.source)])
    case WithExisting =>
      d.(conflicts := d.conflicts + [Conflict(name, ToExternal(name, existing[name]), x.server, x.source, None)])
    case WithIncoming =>
      var owner := d.owners[name];
      d.(conflicts := d.conflicts + [Conflict(name, owner.server, x.server, x.source, Some(owner.source))])
    case New =>
      d.(owners := d.owners[name := x],
         noConflict := d.noConflict + [Fresh(MapServer(x.server).value, x.source, x.server.name)])
  }

  const NOTHING := Detection(map[], [], [], [])

  function Detect(lower: Lower, existing: Upstreams, incoming: seq<Incoming>): Detection {
    if incoming == [] then NOTHING
    else DetectOne(lower, existing, Detect(lower, existing, incoming[..|incoming| - 1]), incoming[|incoming| - 1])
  }

  lemma DetectNext(lower: Lower, existing: Upstreams, incoming: seq<Incoming>, x: Incoming)
    ensures Detect(lower, existing, incoming + [x]) == DetectOne(lower, existing, Detect(lower, existing, incoming), x)
  {
    assert (incoming + [x])[..|incoming|] == incoming;
  }

  /** The body of the loop over the servers. */
  method DetectServer(lower: Lower, existing: Upstreams, d: Detection, server: External, source: string)
    returns (next: Detection)
    ensures next == DetectOne(lower, existing, d, Incoming(server, source))
  {
    var name := NormalizeServerName(lower, server.name);
    var mapped := MapServer(server);
    if mapped == None {
      return d;
    }
    if name in existing {
      if AreConfigsEqual(existing[name], mapped.value) {
        next := d.(inSync := d.inSync + [InSync(name, source)]);
      } else {
        next := d.(conflicts := d.conflicts + [Conflict(name, ToExternal(name, existing[name]), server, source, None)]);
      }
    } else if name in d.owners {
      var owner := d.owners[name];
      next := d.(conflicts := d.conflicts + [Conflict(name, owner.server, server, source, Some(owner.source))]);
    } else {
      next := d.(owners := d.owners[name := Incoming(server, source)],
                 noConflict := d.noConflict + [Fresh(mapped.value, source, server.name)]);
    }
  }

  method DetectConflicts(lower: Lower, existing: Upstreams, groups: seq<Group>) returns (d: Detection)
    ensures d == Detect(lower, existing, Flatten(groups))
  {
    d := NOTHING;
    var n := 0;
    while n < |groups|
      invariant n <= |groups| && d == Detect(lower, existing, Flatten(groups[..n]))
    {
      d := DetectGroup(lower, existing, Flatten(groups[..n]), groups[n], d);
      assert groups[..n + 1][..n] == groups[..n];
      n := n + 1;
    }
    assert groups[..n] == groups;
  }

  /** The inner loop: the servers of one group. */
  method DetectGroup(lower: Lower, existing: Upstreams, ghost before: seq<Incoming>, group: Group, start: Detection)
    returns (d: Detection)
    requires start == Detect(lower, existing, before)
    ensures d == Detect(lower, existing, before + FromGroup(group.source, group.servers))
  {
    d := start;
    var i := 0;
    assert before + FromGroup(group.source, group.servers[..0]) == before;
    while i < |group.servers|
      invariant i <= |group.servers|
      invariant d == Detect(lower, existing, before + FromGroup(group.source, group.servers[..i]))
    {
      GroupNext(before, group, i);
      var server := Incoming(group.servers[i], group.source);
      DetectNext(lower, existing, before + FromGroup(group.source, group.servers[..i]), server);
      d := DetectServer(lower, existing, d, group.servers[i], group.source);
      i := i + 1;
    }
    assert group.servers[..i] == group.servers;
  }

  lemma GroupNext(before: seq<Incoming>, group: Group, i: nat)
    requires i < |group.servers|
    ensures before + FromGroup(group.source, group.servers[..i + 1])
            == before + FromGroup(group.source, group.servers[..i]) + [Incoming(group.servers[i], group.source)]
  {
  }

  // ------------------------------------------------------------------ resolution

  /** The change for a conflict and the names in use after it; none if no unique name is found. */
  function Resolve(lower: Lower, c: Conflict, strategy: Strategy, names: set<string>): Option<(Change, set<string>)> {
    var name := NormalizeServerName(lower, c.incoming.name);
    match strategy
    case Skip => Some((Change(Skipped, name, None, c.source, c.incoming), names))
    case Replace => Some((Change(Update, name, None, c.source, c.incoming), names))
    case Rename =>
      match UniqueName(name, names)
      case Some(unique) => Some((Change(Renamed, unique, Some(name), c.source, c.incoming), names + {unique}))
      case None => None
  }

  function ResolveAll(
      lower: Lower, conflicts: seq<Conflict>, choose: string -> Strategy, names: set<string>): Option<seq<Change>>
  {
    if conflicts == [] then Some([])
    else
      match Resolve(lower, conflicts[0], choose(conflicts[0].serverName), names)
      case None => None
      case Some((change, more)) =>
        match ResolveAll(lower, conflicts[1..], choose, more)
        case None => None
        case Some(rest) => Some([change] + rest)
  }

  /** A new server is recorded under its normalised name, turned back from its mapped config. */
  function AddChange(lower: Lower, item: Fresh): Change {
    var name := NormalizeServerName(lower, item.originalName);
    Change(Add, name, None, item.source, ToExternal(name, item.config))
  }

  function Adds(lower: Lower, items: seq<Fresh>): seq<Change> {
    seq(|items|, i requires 0 <= i < |items| => AddChange(lower, items[i]))
  }

  function ChangeNames(changes: seq<Change>): set<string> {
    set i | 0 <= i < |changes| :: changes[i].serverName
  }

  function ApplyOne(upstreams: Upstreams, change: Change): Upstreams {
    if change.kind.Skipped? then upstreams
    else
      match MapServer(change.server)
      case Some(config) => upstreams[change.serverName := config]
      case None => upstreams
  }

  function ApplyAll(upstreams: Upstreams, changes: seq<Change>): Upstreams {
    if changes == [] then upstreams else ApplyOne(ApplyAll(upstreams, changes[..|changes| - 1]), changes[|changes| - 1])
  }

  /** The names of the changes whose server cannot be mapped. */
  function Warnings(changes: seq<Change>): seq<string> {
    if changes == [] then []
    else
      var last := changes[|changes| - 1];
      Warnings(changes[..|changes| - 1])
      + (if !last.kind.Skipped? && MapServer(last.server) == None then [last.serverName] else [])
  }

  function Merge(
      lower: Lower, existing: Upstreams, incoming: seq<Incoming>, choose: string -> Strategy): Option<Merged>
  {
    var d := Detect(lower, existing, incoming);
    var adds := Adds(lower, d.noConflict);
    match ResolveAll(lower, d.conflicts, choose, existing.Keys + ChangeNames(adds))
    case None => None
    case Some(resolved) =>
      var changes := adds + resolved;
      Some(Merged(ApplyAll(existing, changes), changes, d.conflicts, d.inSync, Warnings(changes)))
  }

  /** One strategy for all conflicts. */
  function Always(strategy: Strategy): string -> Strategy {
    _ => strategy
  }

  /** The strategy chosen for a conflict by name; conflicts without one are skipped. */
  function Chosen(resolutions: map<string, Strategy>): string -> Strategy {
    name => if name in resolutions then resolutions[name] else Skip
  }

  method ResolveConflict(lower: Lower, conflict: Conflict, strategy: Strategy, existingNames: set<string>)
    returns (change: Option<Change>, names: set<string>)
    ensures match Resolve(lower, conflict, strategy, existingNames)
            case Some((c, more)) => change == Some(c) && names == more
            case None => change == None
  {
    var name := NormalizeServerName(lower, conflict.incoming.name);
    names := existingNames;
    match strategy
    case Skip => change := Some(Change(Skipped, name, None, conflict.source, conflict.incoming));
    case Replace => change := Some(Change(Update, name, None, conflict.source, conflict.incoming));
    case Rename =>
      var unique := GenerateUniqueName(name, existingNames);
      if unique == None {
        return None, names;
      }
      names := names + {unique.value};
      change := Some(Change(Renamed, unique.value, Some(name), conflict.source, conflict.incoming));
  }

  method ApplyChanges(existing: Upstreams, changes: seq<Change>) returns (upstreams: Upstreams, warnings: seq<string>)
    ensures upstreams == ApplyAll(existing, changes) && warnings == Warnings(changes)
  {
    upstreams, warnings := existing, [];
    var n := 0;
    while n < |changes|
      invariant n <= |changes| && upstreams == ApplyAll(existing, changes[..n]) && warnings == Warnings(changes[..n])
    {
      assert changes[..n + 1][..n] == changes[..n];
      var change := changes[n];
      if !change.kind.Skipped? {
        var mapped := MapServer(change.server);
        if mapped == None {
          warnings := warnings + [change.serverName];
        } else {
          upstreams := upstreams[change.serverName := mapped.value];
        }
      }
      n := n + 1;
    }
    assert changes[..n] == changes;
  }

  method AddNew(lower: Lower, items: seq<Fresh>, existingNames: set<string>)
    returns (changes: seq<Change>, names: set<string>)
    ensures changes == Adds(lower, items) && names == existingNames + ChangeNames(changes)
  {
    changes, names := [], existingNames;
    var n := 0;
    while n < |items|
      invariant n <= |items| && changes == Adds(lower, items[..n]) && names == existingNames + ChangeNames(changes)
    {
      var name := NormalizeServerName(lower, items[n].originalName);
      var change := Change(Add, name, None, items[n].source, ToExternal(name, items[n].config));
      ChangeNamesNext(changes, change);
      AddsNext(lower, items, n);
      changes := changes + [change];
      names := names + {name};
      n := n + 1;
    }
    assert items[..n] == items;
  }

  lemma AddsNext(lower: Lower, items: seq<Fresh>, n: nat)
    requires n < |items|
    ensures Adds(lower, items[..n + 1]) == Adds(lower, items[..n]) + [AddChange(lower, items[n])]
  {
  }

  lemma ChangeNamesNext(changes: seq<Change>, change: Change)
    ensures ChangeNames(changes + [change]) == ChangeNames(changes) + {change.serverName}
  {
    var all := changes + [change];
    assert all[|changes|] == change;
    forall name | name in ChangeNames(changes) ensures name in ChangeNames(all) {
      var i :| 0 <= i < |changes| && changes[i].serverName == name;
      assert all[i].serverName == name;
    }
  }

  /** The loop over the conflicts, for either way of choosing; no result means that the merge throws. */
  method ResolveConflicts(
      lower: Lower, conflicts: seq<Conflict>, choose: string -> Strategy, existingNames: set<string>)
    returns (changes: Option<seq<Change>>)
    ensures changes == ResolveAll(lower, conflicts, choose, existingNames)
  {
    var done: seq<Change>, names := [], existingNames;
    var n := 0;
    assert conflicts[0..] == conflicts;
    PrependNothing(ResolveAll(lower, conflicts, choose, names));
    while n < |conflicts|
      invariant n <= |conflicts|
      invariant ResolveAll(lower, conflicts, choose, existingNames)
                == Prepend(done, ResolveAll(lower, conflicts[n..], choose, names))
    {
      ResolveNext(lower, conflicts, choose, names, n);
      var change;
      change, names := ResolveConflict(lower, conflicts[n], choose(conflicts[n].serverName), names);
      if change == None {
        return None;
      }
      PrependNext(done, change.value, ResolveAll(lower, conflicts[n + 1..], choose, names));
      done := done + [change.value];
      n := n + 1;
    }
    assert conflicts[n..] == [];
    assert done + [] == done;
    changes := Some(done);
  }

  function Prepend(done: seq<Change>, rest: Option<seq<Change>>): Option<seq<Change>> {
    match rest case Some(more) => Some(done + more) case None => None
  }

  lemma PrependNothing(rest: Option<seq<Change>>)
    ensures Prepend([], rest) == rest
  {
    if rest.Some? {
      assert [] + rest.value == rest.value;
    }
  }

  /** The next conflict resolved, and the others after it. */
  lemma ResolveNext(lower: Lower, conflicts: seq<Conflict>, choose: string -> Strategy, names: set<string>, n: nat)
    requires n < |conflicts|
    ensures ResolveAll(lower, conflicts[n..], choose, names) ==
            match Resolve(lower, conflicts[n], choose(conflicts[n].serverName), names)
            case None => None
            case Some((change, more)) => Prepend([change], ResolveAll(lower, conflicts[n + 1..], choose, more))
  {
    assert conflicts[n..][1..] == conflicts[n + 1..];
  }

  lemma PrependNext(done: seq<Change>, change: Change, rest: Option<seq<Change>>)
    ensures Prepend(done + [change], rest) == Prepend(done, Prepend([change], rest))
  {
    if rest.Some? {
      AppendAssociates(done, [change], rest.value);
    }
  }

  method MergeConfigs(lower: Lower, existing: Upstreams, groups: seq<Group>, choose: string -> Strategy)
    returns (merged: Option<Merged>)
    ensures merged == Merge(lower, existing, Flatten(groups), choose)
  {
    var detection := DetectConflicts(lower, existing, groups);
    var adds, names := AddNew(lower, detection.noConflict, existing.Keys);
    var resolved := ResolveConflicts(lower, detection.conflicts, choose, names);
    if resolved == None {
      return None;
    }
    var changes := adds + resolved.value;
    var upstreams, warnings := ApplyChanges(existing, changes);
    merged := Some(Merged(upstreams, changes, detection.conflicts, detection.inSync, warnings));
  }

  method MergeWithStrategy(lower: Lower, existing: Upstreams, groups: seq<Group>, strategy: Strategy)
    returns (merged: Option<Merged>)
    ensures merged == Merge(lower, existing, Flatten(groups), Always(strategy))
  {
    merged := MergeConfigs(lower, existing, groups, Always(strategy));
  }

  method MergeWithResolutions(lower: Lower, existing: Upstreams, groups: seq<Group>, resolutions: map<string, Strategy>)
    returns (merged: Option<Merged>)
    ensures merged == Merge(lower, existing, Flatten(groups), Chosen(resolutions))
  {
    merged := MergeConfigs(lower, existing, groups, Chosen(resolutions));
  }
}
