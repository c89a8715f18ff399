/** What merging promises: renaming loses nothing, and skipping is idempotent. */
module ImportTheorems {
  import opened Common
  import opened EnvReferences
  import opened ServerNames
  import opened ServerMapping
  import opened ImportMerge

  // ------------------------------------------------------------------ the shape of a detection

  function FreshName(lower: Lower, f: Fresh): string {
    NormalizeServerName(lower, f.originalName)
  }

  /** Every new server holds its name, and maps again. */
  ghost predicate FreshHeld(lower: Lower, owners: map<string, Incoming>, items: seq<Fresh>) {
    forall i :: 0 <= i < |items| ==> FreshName(lower, items[i]) in owners && Mappable(items[i].config)
  }

  ghost predicate FreshApart(lower: Lower, items: seq<Fresh>) {
    forall i, j :: 0 <= i < j < |items| ==> FreshName(lower, items[i]) != FreshName(lower, items[j])
  }

  ghost predicate IsFreshName(lower: Lower, items: seq<Fresh>, n: string) {
    exists i :: 0 <= i < |items| && FreshName(lower, items[i]) == n
  }

  ghost predicate OwnersNew(lower: Lower, existing: Upstreams, owners: map<string, Incoming>, items: seq<Fresh>) {
    forall n :: n in owners ==> n !in existing && IsFreshName(lower, items, n)
  }

  /** New servers have different names, none of them in use; the holders of names are the new servers. */
  ghost predicate FreshShape(lower: Lower, existing: Upstreams, d: Detection) {
    FreshHeld(lower, d.owners, d.noConflict) && FreshApart(lower, d.noConflict)
    && OwnersNew(lower, existing, d.owners, d.noConflict)
  }

  /** Every conflict is about a mappable server whose name is in use. */
  ghost predicate ConflictShape(lower: Lower, existing: Upstreams, d: Detection) {
    forall i :: 0 <= i < |d.conflicts| ==> IsConflict(lower, existing.Keys + d.owners.Keys, d.conflicts[i])
  }

  lemma MappedIsMappable(server: External)
    requires MapServer(server).Some?
    ensures Mappable(MapServer(server).value)
  {
  }

  lemma FreshApartGrown(lower: Lower, items: seq<Fresh>, f: Fresh)
    requires FreshApart(lower, items) && !IsFreshName(lower, items, FreshName(lower, f))
    ensures FreshApart(lower, items + [f])
  {
  }

  lemma FreshNamesGrown(lower: Lower, items: seq<Fresh>, f: Fresh, n: string)
    requires IsFreshName(lower, items, n) || n == FreshName(lower, f)
    ensures IsFreshName(lower, items + [f], n)
  {
    var all := items + [f];
    assert all[|items|] == f;
    if i :| 0 <= i < |items| && FreshName(lower, items[i]) == n {
      assert all[i] == items[i];
    }
  }

  /** One more new server. */
  lemma FreshShapeGrown(lower: Lower, existing: Upstreams, d: Detection, f: Fresh, x: Incoming)
    requires FreshShape(lower, existing, d) && FreshName(lower, f) !in existing && FreshName(lower, f) !in d.owners
             && Mappable(f.config)
    ensures FreshShape(lower, existing,
                       d.(owners := d.owners[FreshName(lower, f) := x], noConflict := d.noConflict + [f]))
  {
    FreshApartGrown(lower, d.noConflict, f);
    forall n | n in d.owners[FreshName(lower, f) := x] ensures IsFreshName(lower, d.noConflict + [f], n) {
      FreshNamesGrown(lower, d.noConflict, f, n);
    }
  }

  lemma FreshShapeNext(lower: Lower, existing: Upstreams, d: Detection, x: Incoming)
    requires FreshShape(lower, existing, d)
    ensures FreshShape(lower, existing, DetectOne(lower, existing, d, x))
  {
    if Judge(lower, existing, d.owners, x) == New {
      MappedIsMappable(x.server);
      FreshShapeGrown(lower, existing, d, Fresh(MapServer(x.server).value, x.source, x.server.name), x);
    }
  }

  /** A conflict is about a mappable server whose name is among the given ones. */
  ghost predicate IsConflict(lower: Lower, names: set<string>, c: Conflict) {
    && c.serverName == NormalizeServerName(lower, c.incoming.name) && c.serverName in names
    && MapServer(c.incoming).Some?
  }

  lemma ConflictShapeNext(lower: Lower, existing: Upstreams, d: Detection, x: Incoming)
    requires ConflictShape(lower, existing, d)
    ensures ConflictShape(lower, existing, DetectOne(lower, existing, d, x))
  {
    var next := DetectOne(lower, existing, d, x);
    forall i | 0 <= i < |next.conflicts|
      ensures IsConflict(lower, existing.Keys + next.owners.Keys, next.conflicts[i])
    {
      if i < |d.conflicts| {
        OldConflict(lower, existing, d, x, i);
      } else {
        NewConflict(lower, existing, d, x, i);
      }
    }
  }

  lemma OldConflict(lower: Lower, existing: Upstreams, d: Detection, x: Incoming, i: nat)
    requires ConflictShape(lower, existing, d) && i < |d.conflicts|
    ensures var next := DetectOne(lower, existing, d, x);
            && i < |next.conflicts|
            && IsConflict(lower, existing.Keys + next.owners.Keys, next.conflicts[i])
  {
    assert IsConflict(lower, existing.Keys + d.owners.Keys, d.conflicts[i]);
    OneGrows(lower, existing, d, d, x);
  }

  lemma NewConflict(lower: Lower, existing: Upstreams, d: Detection, x: Incoming, i: nat)
    requires |d.conflicts| <= i < |DetectOne(lower, existing, d, x).conflicts|
    ensures var next := DetectOne(lower, existing, d, x);
            IsConflict(lower, existing.Keys + next.owners.Keys, next.conflicts[i])
  {
    match Judge(lower, existing, d.owners, x)
    case WithExisting => assert NameOf(lower, x) in existing;
    case WithIncoming => assert NameOf(lower, x) in d.owners;
    case _ =>
  }

  lemma {:induction false} DetectShape(lower: Lower, existing: Upstreams, incoming: seq<Incoming>)
    ensures FreshShape(lower, existing, Detect(lower, existing, incoming))
    ensures ConflictShape(lower, existing, Detect(lower, existing, incoming))
  {
    if incoming != [] {
      var init, x := incoming[..|incoming| - 1], incoming[|incoming| - 1];
      DetectShape(lower, existing, init);
      FreshShapeNext(lower, existing, Detect(lower, existing, init), x);
      ConflictShapeNext(lower, existing, Detect(lower, existing, init), x);
    }
  }

  /** The config of each new server is what its holder maps to. */
  ghost predicate HoldersMatch(lower: Lower, owners: map<string, Incoming>, items: seq<Fresh>) {
    forall i :: 0 <= i < |items| ==>
      && FreshName(lower, items[i]) in owners
      && MapServer(owners[FreshName(lower, items[i])].server) == Some(items[i].config)
  }

  lemma {:induction false} OwnersMapped(lower: Lower, existing: Upstreams, incoming: seq<Incoming>)
    ensures var d := Detect(lower, existing, incoming); HoldersMatch(lower, d.owners, d.noConflict)
  {
    if incoming != [] {
      var d := Detect(lower, existing, incoming[..|incoming| - 1]);
      OwnersMapped(lower, existing, incoming[..|incoming| - 1]);
      HoldersMatchNext(lower, existing, d, incoming[|incoming| - 1]);
    }
  }

  lemma HoldersMatchNext(lower: Lower, existing: Upstreams, d: Detection, x: Incoming)
    requires HoldersMatch(lower, d.owners, d.noConflict)
    ensures var next := DetectOne(lower, existing, d, x); HoldersMatch(lower, next.owners, next.noConflict)
  {
    if Judge(lower, existing, d.owners, x) == New {
      var next := DetectOne(lower, existing, d, x);
      forall i | 0 <= i < |d.noConflict|
        ensures FreshName(lower, next.noConflict[i]) in d.owners && next.noConflict[i] == d.noConflict[i]
      {
      }
    }
  }

  // ------------------------------------------------------------------ every incoming server has its place

  function VerdictAt(lower: Lower, existing: Upstreams, incoming: seq<Incoming>, k: nat): Verdict
    requires k < |incoming|
  {
    Judge(lower, existing, Detect(lower, existing, incoming[..k]).owners, incoming[k])
  }

  /** Neither unmappable nor in sync. */
  predicate ToBeStored(v: Verdict) {
    v.New? || v.WithExisting? || v.WithIncoming?
  }

  /** How many incoming servers are to be stored. */
  function StoredCount(lower: Lower, existing: Upstreams, incoming: seq<Incoming>): nat {
    if incoming == [] then 0
    else
      var init := incoming[..|incoming| - 1];
      StoredCount(lower, existing, init)
      + (if ToBeStored(Judge(lower, existing, Detect(lower, existing, init).owners, incoming[|incoming| - 1]))
         then 1 else 0)
  }

  lemma {:induction false} StoredAreFreshOrConflicts(lower: Lower, existing: Upstreams, incoming: seq<Incoming>)
    ensures var d := Detect(lower, existing, incoming);
            StoredCount(lower, existing, incoming) == |d.noConflict| + |d.conflicts|
  {
    if incoming != [] {
      StoredAreFreshOrConflicts(lower, existing, incoming[..|incoming| - 1]);
    }
  }

  ghost predicate Within(early: Detection, d: Detection) {
    early.noConflict <= d.noConflict && early.conflicts <= d.conflicts && early.owners.Keys <= d.owners.Keys
  }

  lemma OneGrows(lower: Lower, existing: Upstreams, early: Detection, d: Detection, x: Incoming)
    requires Within(early, d)
    ensures Within(early, DetectOne(lower, existing, d, x))
  {
    match Judge(lower, existing, d.owners, x)
    case New => assert d.noConflict <= DetectOne(lower, existing, d, x).noConflict;
    case Unmapped =>
    case Synced =>
    case _ => assert d.conflicts <= DetectOne(lower, existing, d, x).conflicts;
  }

  lemma {:induction false} DetectionGrows(lower: Lower, existing: Upstreams, incoming: seq<Incoming>, k: nat)
    requires k <= |incoming|
    ensures Within(Detect(lower, existing, incoming[..k]), Detect(lower, existing, incoming))
  {
    if k == |incoming| {
      assert incoming[..k] == incoming;
    } else {
      var init := incoming[..|incoming| - 1];
      DetectionGrows(lower, existing, init, k);
      assert init[..k] == incoming[..k];
      OneGrows(lower, existing, Detect(lower, existing, incoming[..k]), Detect(lower, existing, init),
               incoming[|incoming| - 1]);
    }
  }

  /** The position of the change that stores the k-th incoming server. */
  function ChangeIndex(lower: Lower, existing: Upstreams, incoming: seq<Incoming>, k: nat): nat
    requires k < |incoming|
  {
    var early := Detect(lower, existing, incoming[..k]);
    if VerdictAt(lower, existing, incoming, k).New? then |early.noConflict|
    else |Detect(lower, existing, incoming).noConflict| + |early.conflicts|
  }

  /** What one server to be stored adds to a detection. */
  lemma OnePlace(lower: Lower, existing: Upstreams, early: Detection, x: Incoming)
    requires ToBeStored(Judge(lower, existing, early.owners, x))
    ensures var next := DetectOne(lower, existing, early, x);
            && MapServer(x.server).Some?
            && if Judge(lower, existing, early.owners, x).New?
               then next.noConflict == early.noConflict + [Fresh(MapServer(x.server).value, x.source, x.server.name)]
               else |next.conflicts| == |early.conflicts| + 1 && next.conflicts[|early.conflicts|].incoming == x.server
  {
  }

  /** Where a server to be stored is found in the detection. */
  lemma PlaceOf(lower: Lower, existing: Upstreams, incoming: seq<Incoming>, k: nat)
    requires k < |incoming| && ToBeStored(VerdictAt(lower, existing, incoming, k))
    ensures var d, x, c := Detect(lower, existing, incoming), incoming[k], ChangeIndex(lower, existing, incoming, k);
            && MapServer(x.server).Some?
            && if VerdictAt(lower, existing, incoming, k).New?
               then c < |d.noConflict| && d.noConflict[c] == Fresh(MapServer(x.server).value, x.source, x.server.name)
               else
                 && |d.noConflict| <= c < |d.noConflict| + |d.conflicts|
                 && d.conflicts[c - |d.noConflict|].incoming == x.server
  {
    var early := Detect(lower, existing, incoming[..k]);
    OnePlace(lower, existing, early, incoming[k]);
    DetectUpTo(lower, existing, incoming, k);
    DetectionGrows(lower, existing, incoming, k + 1);
  }

  lemma DetectUpTo(lower: Lower, existing: Upstreams, incoming: seq<Incoming>, k: nat)
    requires k < |incoming|
    ensures Detect(lower, existing, incoming[..k + 1])
            == DetectOne(lower, existing, Detect(lower, existing, incoming[..k]), incoming[k])
  {
    assert incoming[..k + 1][..k] == incoming[..k];
  }

  /** Different servers are stored by different changes. */
  lemma ChangesDiffer(lower: Lower, existing: Upstreams, incoming: seq<Incoming>, k: nat, l: nat)
    requires k < l < |incoming|
    requires ToBeStored(VerdictAt(lower, existing, incoming, k)) && ToBeStored(VerdictAt(lower, existing, incoming, l))
    ensures ChangeIndex(lower, existing, incoming, k) != ChangeIndex(lower, existing, incoming, l)
  {
    PlaceOf(lower, existing, incoming, k);
    PlaceOf(lower, existing, incoming, l);
    LaterPlace(lower, existing, incoming, k, l);
  }

  lemma LaterPlace(lower: Lower, existing: Upstreams, incoming: seq<Incoming>, k: nat, l: nat)
    requires k < l < |incoming|
    ensures var early, late := Detect(lower, existing, incoming[..k]), Detect(lower, existing, incoming[..l]);
            match VerdictAt(lower, existing, incoming, k)
            case New => |early.noConflict| < |late.noConflict|
            case WithExisting => |early.conflicts| < |late.conflicts|
            case WithIncoming => |early.conflicts| < |late.conflicts|
            case _ => true
  {
    assert incoming[..k + 1][..k] == incoming[..k];
    assert incoming[..l][..k + 1] == incoming[..k + 1];
    DetectionGrows(lower, existing, incoming[..l], k + 1);
  }

  // ------------------------------------------------------------------ applying changes

  /** Changes that each store a server, all under different names. */
  ghost predicate Storing(changes: seq<Change>) {
    && (forall i :: 0 <= i < |changes| ==> !changes[i].kind.Skipped? && MapServer(changes[i].server).Some?)
    && (forall i, j :: 0 <= i < j < |changes| ==> changes[i].serverName != changes[j].serverName)
  }

  ghost predicate NewNames(changes: seq<Change>, taken: set<string>) {
    forall i :: 0 <= i < |changes| ==> changes[i].serverName !in taken
  }

  /** The i-th change is in effect. */
  ghost predicate Stored(upstreams: Upstreams, change: Change) {
    MapServer(change.server).Some? && change.serverName in upstreams
    && upstreams[change.serverName] == MapServer(change.server).value
  }

  ghost predicate Extends(upstreams: Upstreams, existing: Upstreams) {
    forall n :: n in existing ==> n in upstreams && upstreams[n] == existing[n]
  }

  /** The upstreams after changes that each store a server under a new name. */
  ghost predicate Outcome(existing: Upstreams, changes: seq<Change>, after: Upstreams) {
    && Extends(after, existing) && |after| == |existing| + |changes|
    && (forall i :: 0 <= i < |changes| ==> Stored(after, changes[i]))
    && (forall n :: n in after ==> n in existing || Names(changes, n))
  }

  ghost predicate Names(changes: seq<Change>, n: string) {
    exists i :: 0 <= i < |changes| && changes[i].serverName == n
  }

  lemma NamesNext(changes: seq<Change>, last: Change, n: string)
    ensures Names(changes + [last], n) <==> Names(changes, n) || last.serverName == n
  {
    var all := changes + [last];
    assert all[|changes|] == last;
    if Names(changes, n) {
      var i :| 0 <= i < |changes| && changes[i].serverName == n;
      assert all[i].serverName == n;
    }
  }

  lemma OneStored(existing: Upstreams, changes: seq<Change>, last: Change, before: Upstreams, change: Change)
    requires MapServer(last.server).Some? && !Names(changes, last.serverName)
    requires change == last || (change in changes && Stored(before, change))
    ensures Stored(before[last.serverName := MapServer(last.server).value], change)
  {
    if change != last {
      var i :| 0 <= i < |changes| && changes[i] == change;
      assert changes[i].serverName != last.serverName;
    }
  }

  lemma OneMoreEntry(before: Upstreams, name: string, config: Upstream)
    requires name !in before
    ensures |before[name := config]| == |before| + 1
  {
    var after := before[name := config];
    assert after.Keys == before.Keys + {name};
    assert |after| == |after.Keys| == |before.Keys| + 1;
  }

  lemma OutcomeNext(existing: Upstreams, changes: seq<Change>, last: Change, before: Upstreams)
    requires Outcome(existing, changes, before) && MapServer(last.server).Some?
    requires last.serverName !in existing && !Names(changes, last.serverName)
    ensures Outcome(existing, changes + [last], before[last.serverName := MapServer(last.server).value])
  {
    var after := before[last.serverName := MapServer(last.server).value];
    OneMoreEntry(before, last.serverName, MapServer(last.server).value);
    forall i | 0 <= i < |changes + [last]| ensures Stored(after, (changes + [last])[i]) {
      OneStored(existing, changes, last, before, (changes + [last])[i]);
    }
    forall n | n in after && n !in existing ensures Names(changes + [last], n) {
      NamesNext(changes, last, n);
    }
  }

  lemma {:induction false} ApplyStores(existing: Upstreams, changes: seq<Change>)
    requires Storing(changes) && NewNames(changes, existing.Keys)
    ensures Outcome(existing, changes, ApplyAll(existing, changes)) && Warnings(changes) == []
  {
    if changes != [] {
      var init, last := changes[..|changes| - 1], changes[|changes| - 1];
      assert changes == init + [last];
      ApplyStores(existing, init);
      OutcomeNext(existing, init, last, ApplyAll(existing, init));
    }
  }

  /** The changes for new servers. */
  lemma AddsStore(lower: Lower, existing: Upstreams, d: Detection)
    requires FreshShape(lower, existing, d)
    ensures var adds := Adds(lower, d.noConflict);
            Storing(adds) && NewNames(adds, existing.Keys) && ChangeNames(adds) == d.owners.Keys
  {
    var adds := Adds(lower, d.noConflict);
    forall i | 0 <= i < |adds|
      ensures adds[i].serverName == FreshName(lower, d.noConflict[i]) && MapServer(adds[i].server).Some?
    {
      MapsAgainConfig(adds[i].serverName, d.noConflict[i].config);
    }
    AddsNamed(lower, d);
    AddsNameOwners(lower, existing, d);
  }

  lemma AddsNamed(lower: Lower, d: Detection)
    ensures var adds := Adds(lower, d.noConflict);
            && |adds| == |d.noConflict|
            && forall i :: 0 <= i < |adds| ==> adds[i].serverName == FreshName(lower, d.noConflict[i])
  {
  }

  lemma AddsNameOwners(lower: Lower, existing: Upstreams, d: Detection)
    requires FreshShape(lower, existing, d)
    ensures ChangeNames(Adds(lower, d.noConflict)) == d.owners.Keys
  {
    var adds := Adds(lower, d.noConflict);
    AddsNamed(lower, d);
    forall n ensures n in ChangeNames(adds) <==> n in d.owners {
      if n in d.owners {
        var i :| 0 <= i < |d.noConflict| && FreshName(lower, d.noConflict[i]) == n;
        assert adds[i].serverName == n;
      }
    }
  }

  // ------------------------------------------------------------------ renaming

  /** The conflicting servers are already named. */
  ghost predicate NamesTaken(lower: Lower, conflicts: seq<Conflict>, names: set<string>) {
    forall i :: 0 <= i < |conflicts| ==> NormalizeServerName(lower, conflicts[i].incoming.name) in names
  }

  /** Each change renames the server of its conflict to something else. */
  ghost predicate RenamesOf(lower: Lower, conflicts: seq<Conflict>, rs: seq<Change>) {
    && |rs| == |conflicts|
    && (forall i :: 0 <= i < |rs| ==> rs[i].kind.Renamed? && rs[i].server == conflicts[i].incoming)
    && (forall i :: 0 <= i < |rs| ==> rs[i].serverName != NormalizeServerName(lower, conflicts[i].incoming.name))
  }

  ghost predicate NamesApart(changes: seq<Change>) {
    forall i, j :: 0 <= i < j < |changes| ==> changes[i].serverName != changes[j].serverName
  }

  lemma OneRename(lower: Lower, c: Conflict, conflicts: seq<Conflict>, names: set<string>, r: Change, rs: seq<Change>)
    requires r.kind.Renamed? && r.server == c.incoming && r.serverName !in names
             && NormalizeServerName(lower, c.incoming.name) in names
    requires RenamesOf(lower, conflicts, rs) && NewNames(rs, names + {r.serverName}) && NamesApart(rs)
    ensures RenamesOf(lower, [c] + conflicts, [r] + rs) && NewNames([r] + rs, names) && NamesApart([r] + rs)
  {
  }

  lemma {:induction false} RenamesAreNew(lower: Lower, conflicts: seq<Conflict>, names: set<string>)
    requires NamesTaken(lower, conflicts, names) && ResolveAll(lower, conflicts, Always(Rename), names).Some?
    ensures var rs := ResolveAll(lower, conflicts, Always(Rename), names).value;
            RenamesOf(lower, conflicts, rs) && NewNames(rs, names) && NamesApart(rs)
  {
    if conflicts != [] {
      var c := conflicts[0];
      var name := NormalizeServerName(lower, c.incoming.name);
      UniqueNameExact(name, names);
      var unique := UniqueName(name, names).value;
      RenamesAreNew(lower, conflicts[1..], names + {unique});
      OneRename(lower, c, conflicts[1..], names, Change(Renamed, unique, Some(name), c.source, c.incoming),
                ResolveAll(lower, conflicts[1..], Always(Rename), names + {unique}).value);
      assert conflicts == [c] + conflicts[1..];
    }
  }

  /** With at most a thousand names in the end, renaming never runs out of suffixes. */
  lemma {:induction false} RenamesSuffice(lower: Lower, conflicts: seq<Conflict>, names: set<string>)
    requires |names| + |conflicts| <= LAST_SUFFIX
    ensures ResolveAll(lower, conflicts, Always(Rename), names).Some?
  {
    if conflicts != [] {
      var name := NormalizeServerName(lower, conflicts[0].incoming.name);
      FewNamesSuffice(name, names);
      RenamesSuffice(lower, conflicts[1..], names + {UniqueName(name, names).value});
    }
  }

  lemma ConcatStoring(a: seq<Change>, b: seq<Change>, taken: set<string>)
    requires Storing(a) && Storing(b) && NewNames(a, taken) && NewNames(b, taken + ChangeNames(a))
    ensures Storing(a + b) && NewNames(a + b, taken)
  {
    forall i, j | 0 <= i < |a| && 0 <= j < |b| ensures a[i].serverName != b[j].serverName {
      assert a[i].serverName in ChangeNames(a);
    }
  }

  function AddsOf(lower: Lower, existing: Upstreams, incoming: seq<Incoming>): seq<Change> {
    Adds(lower, Detect(lower, existing, incoming).noConflict)
  }

  /** The names in use before conflicts are resolved. */
  function NamesOf(lower: Lower, existing: Upstreams, incoming: seq<Incoming>): set<string> {
    existing.Keys + ChangeNames(AddsOf(lower, existing, incoming))
  }

  function Resolutions(
      lower: Lower, existing: Upstreams, incoming: seq<Incoming>, choose: string -> Strategy): Option<seq<Change>>
  {
    ResolveAll(lower, Detect(lower, existing, incoming).conflicts, choose, NamesOf(lower, existing, incoming))
  }

  lemma MergeParts(lower: Lower, existing: Upstreams, incoming: seq<Incoming>, choose: string -> Strategy)
    ensures var m, rs := Merge(lower, existing, incoming, choose), Resolutions(lower, existing, incoming, choose);
            && (m.Some? <==> rs.Some?)
            && (m.Some? ==>
                  && m.value.changes == AddsOf(lower, existing, incoming) + rs.value
                  && m.value.upstreams == ApplyAll(existing, m.value.changes)
                  && m.value.warnings == Warnings(m.value.changes))
  {
  }

  lemma RenamesStoring(lower: Lower, conflicts: seq<Conflict>, rs: seq<Change>)
    requires RenamesOf(lower, conflicts, rs) && NamesApart(rs)
    requires forall i :: 0 <= i < |conflicts| ==> MapServer(conflicts[i].incoming).Some?
    ensures Storing(rs)
  {
  }

  /** The changes for the conflicts of a rename merge. */
  lemma RenamesStore(lower: Lower, existing: Upstreams, incoming: seq<Incoming>)
    requires Resolutions(lower, existing, incoming, Always(Rename)).Some?
    ensures var d := Detect(lower, existing, incoming);
            var rs := Resolutions(lower, existing, incoming, Always(Rename)).value;
            Storing(rs) && NewNames(rs, NamesOf(lower, existing, incoming)) && RenamesOf(lower, d.conflicts, rs)
  {
    var d := Detect(lower, existing, incoming);
    ConflictsNamed(lower, existing, incoming);
    RenamesAreNew(lower, d.conflicts, NamesOf(lower, existing, incoming));
    RenamesStoring(lower, d.conflicts, Resolutions(lower, existing, incoming, Always(Rename)).value);
  }

  lemma ConflictsNamed(lower: Lower, existing: Upstreams, incoming: seq<Incoming>)
    ensures var conflicts := Detect(lower, existing, incoming).conflicts;
            && NamesTaken(lower, conflicts, NamesOf(lower, existing, incoming))
            && forall i :: 0 <= i < |conflicts| ==> MapServer(conflicts[i].incoming).Some?
  {
    DetectShape(lower, existing, incoming);
    AddsStore(lower, existing, Detect(lower, existing, incoming));
  }

  /** The change adds the new server. */
  ghost predicate AddsIt(lower: Lower, f: Fresh, change: Change) {
    change == AddChange(lower, f)
  }

  /** The change stores the conflicting server under another name. */
  ghost predicate RenamesIt(lower: Lower, c: Conflict, change: Change) {
    change.server == c.incoming && change.serverName != NormalizeServerName(lower, c.incoming.name)
  }

  /** First the changes for the new servers, then those for the conflicts. */
  ghost predicate InPlace(lower: Lower, d: Detection, changes: seq<Change>) {
    && |changes| == |d.noConflict| + |d.conflicts|
    && (forall i :: 0 <= i < |d.noConflict| ==> AddsIt(lower, d.noConflict[i], changes[i]))
    && (forall i :: |d.noConflict| <= i < |changes| ==> RenamesIt(lower, d.conflicts[i - |d.noConflict|], changes[i]))
  }

  lemma ConcatInPlace(lower: Lower, d: Detection, rs: seq<Change>)
    requires RenamesOf(lower, d.conflicts, rs)
    ensures InPlace(lower, d, Adds(lower, d.noConflict) + rs)
  {
    AddsAdd(lower, d.noConflict);
    RenamesRename(lower, d.conflicts, rs);
    InPlaceOf(lower, d, Adds(lower, d.noConflict), rs);
  }

  ghost predicate AllAdd(lower: Lower, items: seq<Fresh>, changes: seq<Change>) {
    |changes| == |items| && forall i :: 0 <= i < |items| ==> AddsIt(lower, items[i], changes[i])
  }

  ghost predicate AllRename(lower: Lower, conflicts: seq<Conflict>, changes: seq<Change>) {
    |changes| == |conflicts| && forall i :: 0 <= i < |changes| ==> RenamesIt(lower, conflicts[i], changes[i])
  }

  lemma AddsAdd(lower: Lower, items: seq<Fresh>)
    ensures AllAdd(lower, items, Adds(lower, items))
  {
  }

  lemma RenamesRename(lower: Lower, conflicts: seq<Conflict>, rs: seq<Change>)
    requires RenamesOf(lower, conflicts, rs)
    ensures AllRename(lower, conflicts, rs)
  {
  }

  lemma InPlaceOf(lower: Lower, d: Detection, adds: seq<Change>, rs: seq<Change>)
    requires AllAdd(lower, d.noConflict, adds) && AllRename(lower, d.conflicts, rs)
    ensures InPlace(lower, d, adds + rs)
  {
    forall i | |adds| <= i < |adds + rs| ensures RenamesIt(lower, d.conflicts[i - |adds|], (adds + rs)[i]) {
      assert (adds + rs)[i] == rs[i - |adds|];
    }
  }

  /** What a rename merge makes of its detection. */
  lemma RenameChanges(lower: Lower, existing: Upstreams, incoming: seq<Incoming>)
    requires Merge(lower, existing, incoming, Always(Rename)).Some?
    ensures var changes := Merge(lower, existing, incoming, Always(Rename)).value.changes;
            Storing(changes) && NewNames(changes, existing.Keys)
            && InPlace(lower, Detect(lower, existing, incoming), changes)
  {
    var d := Detect(lower, existing, incoming);
    MergeParts(lower, existing, incoming, Always(Rename));
    DetectShape(lower, existing, incoming);
    AddsStore(lower, existing, d);
    RenamesStore(lower, existing, incoming);
    var adds, rs := AddsOf(lower, existing, incoming), Resolutions(lower, existing, incoming, Always(Rename)).value;
    ConcatStoring(adds, rs, existing.Keys);
    ConcatInPlace(lower, d, rs);
  }

  lemma RenameOutcome(lower: Lower, existing: Upstreams, incoming: seq<Incoming>)
    requires Merge(lower, existing, incoming, Always(Rename)).Some?
    ensures var m := Merge(lower, existing, incoming, Always(Rename)).value;
            Outcome(existing, m.changes, m.upstreams) && m.warnings == []
  {
    RenameChanges(lower, existing, incoming);
    MergeParts(lower, existing, incoming, Always(Rename));
    ApplyStores(existing, Merge(lower, existing, incoming, Always(Rename)).value.changes);
  }

  /**
   * A rename merge keeps every existing upstream as it was and adds exactly one entry for each server that is mappable
   * and not in sync.
   */
  lemma RenameKeepsAndCounts(lower: Lower, existing: Upstreams, incoming: seq<Incoming>)
    requires Merge(lower, existing, incoming, Always(Rename)).Some?
    ensures var m := Merge(lower, existing, incoming, Always(Rename)).value;
            && Extends(m.upstreams, existing) && m.warnings == []
            && |m.upstreams| == |existing| + StoredCount(lower, existing, incoming)
  {
    RenameChanges(lower, existing, incoming);
    RenameOutcome(lower, existing, incoming);
    StoredAreFreshOrConflicts(lower, existing, incoming);
  }

  lemma NewStoredAt(lower: Lower, x: Incoming, change: Change, upstreams: Upstreams)
    requires MapServer(x.server).Some? && Stored(upstreams, change)
    requires AddsIt(lower, Fresh(MapServer(x.server).value, x.source, x.server.name), change)
    ensures change.serverName == NameOf(lower, x)
    ensures upstreams[change.serverName] == Remapped(change.serverName, MapServer(x.server).value)
  {
    MapsAgain(change.serverName, x.server);
  }

  lemma ConflictStoredAt(lower: Lower, x: Incoming, c: Conflict, change: Change, upstreams: Upstreams)
    requires c.incoming == x.server && Stored(upstreams, change) && RenamesIt(lower, c, change)
    ensures change.serverName != NameOf(lower, x) && MapServer(x.server) == Some(upstreams[change.serverName])
  {
  }

  /** Where the k-th server is found, given the changes in place and their outcome. */
  lemma StoredAt(
      lower: Lower, existing: Upstreams, incoming: seq<Incoming>, changes: seq<Change>, upstreams: Upstreams, k: nat)
    requires k < |incoming| && ToBeStored(VerdictAt(lower, existing, incoming, k))
    requires InPlace(lower, Detect(lower, existing, incoming), changes) && NewNames(changes, existing.Keys)
    requires Outcome(existing, changes, upstreams)
    ensures var c := ChangeIndex(lower, existing, incoming, k);
            && c < |changes| && MapServer(incoming[k].server).Some?
            && var name, config := changes[c].serverName, MapServer(incoming[k].server).value;
               && name !in existing && name in upstreams
               && if VerdictAt(lower, existing, incoming, k).New?
                  then name == NameOf(lower, incoming[k]) && upstreams[name] == Remapped(name, config)
                  else name != NameOf(lower, incoming[k]) && upstreams[name] == config
  {
    var d, c := Detect(lower, existing, incoming), ChangeIndex(lower, existing, incoming, k);
    PlaceOf(lower, existing, incoming, k);
    assert Stored(upstreams, changes[c]);
    if VerdictAt(lower, existing, incoming, k).New? {
      NewStoredAt(lower, incoming[k], changes[c], upstreams);
    } else {
      ConflictStoredAt(lower, incoming[k], d.conflicts[c - |d.noConflict|], changes[c], upstreams);
    }
  }

  /**
   * Under the name of its change, each such server is found: a conflicting one as mapped, a new one as mapped twice.
   */
  lemma RenameStoresEach(lower: Lower, existing: Upstreams, incoming: seq<Incoming>, k: nat)
    requires Merge(lower, existing, incoming, Always(Rename)).Some?
    requires k < |incoming| && ToBeStored(VerdictAt(lower, existing, incoming, k))
    ensures var m := Merge(lower, existing, incoming, Always(Rename)).value;
            var c := ChangeIndex(lower, existing, incoming, k);
            && c < |m.changes| && MapServer(incoming[k].server).Some?
            && var name, config := m.changes[c].serverName, MapServer(incoming[k].server).value;
               && name !in existing && name in m.upstreams
               && if VerdictAt(lower, existing, incoming, k).New?
                  then name == NameOf(lower, incoming[k]) && m.upstreams[name] == Remapped(name, config)
                  else name != NameOf(lower, incoming[k]) && m.upstreams[name] == config
  {
    var m := Merge(lower, existing, incoming, Always(Rename)).value;
    RenameChanges(lower, existing, incoming);
    RenameOutcome(lower, existing, incoming);
    StoredAt(lower, existing, incoming, m.changes, m.upstreams, k);
  }

  /** No two incoming servers end up under one name. */
  lemma RenameNamesDiffer(lower: Lower, existing: Upstreams, incoming: seq<Incoming>, k: nat, l: nat)
    requires Merge(lower, existing, incoming, Always(Rename)).Some? && k < l < |incoming|
    requires ToBeStored(VerdictAt(lower, existing, incoming, k)) && ToBeStored(VerdictAt(lower, existing, incoming, l))
    ensures var m := Merge(lower, existing, incoming, Always(Rename)).value;
            var a, b := ChangeIndex(lower, existing, incoming, k), ChangeIndex(lower, existing, incoming, l);
            a < |m.changes| && b < |m.changes| && m.changes[a].serverName != m.changes[b].serverName
  {
    RenameChanges(lower, existing, incoming);
    PlaceOf(lower, existing, incoming, k);
    PlaceOf(lower, existing, incoming, l);
    ChangesDiffer(lower, existing, incoming, k, l);
  }

  lemma {:induction false} StoredAtMostAll(lower: Lower, existing: Upstreams, incoming: seq<Incoming>)
    ensures StoredCount(lower, existing, incoming) <= |incoming|
  {
    if incoming != [] {
      StoredAtMostAll(lower, existing, incoming[..|incoming| - 1]);
    }
  }

  lemma NamesAreFew(existing: set<string>, changes: seq<Change>)
    ensures |existing + ChangeNames(changes)| <= |existing| + |changes|
  {
    ChangeNamesFew(changes);
    assert |existing + ChangeNames(changes)| <= |existing| + |ChangeNames(changes)|;
  }

  lemma {:induction false} ChangeNamesFew(changes: seq<Change>)
    ensures |ChangeNames(changes)| <= |changes|
  {
    if changes == [] {
      assert ChangeNames(changes) == {};
    } else {
      var init, last := changes[..|changes| - 1], changes[|changes| - 1];
      ChangeNamesFew(init);
      ChangeNamesNext(init, last);
      assert changes == init + [last];
    }
  }

  /** A rename merge of at most a thousand servers in all never throws. */
  lemma RenameSucceeds(lower: Lower, existing: Upstreams, incoming: seq<Incoming>)
    requires |existing| + |incoming| <= 1000
    ensures Merge(lower, existing, incoming, Always(Rename)).Some?
  {
    StoredAreFreshOrConflicts(lower, existing, incoming);
    StoredAtMostAll(lower, existing, incoming);
    NamesAreFew(existing.Keys, AddsOf(lower, existing, incoming));
    assert |existing.Keys| == |existing|;
    RenamesSuffice(lower, Detect(lower, existing, incoming).conflicts, NamesOf(lower, existing, incoming));
    MergeParts(lower, existing, incoming, Always(Rename));
  }

  // ------------------------------------------------------------------ skipping

  ghost predicate AllSkipped(changes: seq<Change>) {
    forall i :: 0 <= i < |changes| ==> changes[i].kind.Skipped?
  }

  lemma {:induction false} SkipsSkip(lower: Lower, conflicts: seq<Conflict>, names: set<string>)
    ensures var rs := ResolveAll(lower, conflicts, Always(Skip), names); rs.Some? && AllSkipped(rs.value)
  {
    if conflicts != [] {
      SkipsSkip(lower, conflicts[1..], names);
    }
  }

  lemma {:induction false} SkippedDoNothing(existing: Upstreams, changes: seq<Change>, skipped: seq<Change>)
    requires AllSkipped(skipped)
    ensures ApplyAll(existing, changes + skipped) == ApplyAll(existing, changes)
  {
    if skipped == [] {
      assert changes + skipped == changes;
    } else {
      var init := skipped[..|skipped| - 1];
      SkippedDoNothing(existing, changes, init);
      assert (changes + skipped)[..|changes + skipped| - 1] == changes + init;
    }
  }

  /** A skip merge adds the new servers and nothing else. */
  lemma SkipAddsNew(lower: Lower, existing: Upstreams, incoming: seq<Incoming>)
    ensures var adds, m := AddsOf(lower, existing, incoming), Merge(lower, existing, incoming, Always(Skip));
            && m.Some? && Outcome(existing, adds, m.value.upstreams)
            && m.value.upstreams.Keys == existing.Keys + Detect(lower, existing, incoming).owners.Keys
  {
    var d, adds := Detect(lower, existing, incoming), AddsOf(lower, existing, incoming);
    DetectShape(lower, existing, incoming);
    AddsStore(lower, existing, d);
    SkipsSkip(lower, d.conflicts, NamesOf(lower, existing, incoming));
    MergeParts(lower, existing, incoming, Always(Skip));
    SkippedDoNothing(existing, adds, Resolutions(lower, existing, incoming, Always(Skip)).value);
    ApplyStores(existing, adds);
    OutcomeKeys(existing, adds, ApplyAll(existing, adds));
  }

  lemma OutcomeKeys(existing: Upstreams, changes: seq<Change>, after: Upstreams)
    requires Outcome(existing, changes, after)
    ensures after.Keys == existing.Keys + ChangeNames(changes)
  {
    forall n | n in ChangeNames(changes) ensures n in after {
      var i :| 0 <= i < |changes| && changes[i].serverName == n;
      assert Stored(after, changes[i]);
    }
  }

  /** A mappable server's name is in use after detection. */
  lemma {:induction false} MappableIsNamed(lower: Lower, existing: Upstreams, incoming: seq<Incoming>, k: nat)
    requires k < |incoming| && MapServer(incoming[k].server).Some?
    ensures NameOf(lower, incoming[k]) in existing.Keys + Detect(lower, existing, incoming).owners.Keys
  {
    assert incoming[..k + 1][..k] == incoming[..k];
    assert NameOf(lower, incoming[k]) in existing.Keys + Detect(lower, existing, incoming[..k + 1]).owners.Keys;
    DetectionGrows(lower, existing, incoming, k + 1);
  }

  /** If all mappable servers have names in the config, none is new and none conflicts with another incoming one. */
  lemma {:induction false} NothingNew(lower: Lower, existing: Upstreams, incoming: seq<Incoming>)
    requires forall k :: 0 <= k < |incoming| && MapServer(incoming[k].server).Some? ==>
               NameOf(lower, incoming[k]) in existing
    ensures Detect(lower, existing, incoming).noConflict == [] && Detect(lower, existing, incoming).owners == map[]
  {
    if incoming != [] {
      NothingNew(lower, existing, incoming[..|incoming| - 1]);
      assert MapServer(incoming[|incoming| - 1].server).Some? ==> NameOf(lower, incoming[|incoming| - 1]) in existing;
    }
  }

  /**
   * After a skip merge, merging the same servers again finds each in sync or skips it, and leaves the config unchanged.
   */
  lemma SkipMergeIsIdempotent(lower: Lower, existing: Upstreams, incoming: seq<Incoming>)
    ensures Merge(lower, existing, incoming, Always(Skip)).Some?
    ensures var once := Merge(lower, existing, incoming, Always(Skip)).value.upstreams;
            var again := Merge(lower, once, incoming, Always(Skip));
            && again.Some? && again.value.upstreams == once && AllSkipped(again.value.changes)
            && forall k :: 0 <= k < |incoming| ==>
                 VerdictAt(lower, once, incoming, k) in {Unmapped, Synced, WithExisting}
  {
    SkipAddsNew(lower, existing, incoming);
    var once := Merge(lower, existing, incoming, Always(Skip)).value.upstreams;
    forall k | 0 <= k < |incoming| && MapServer(incoming[k].server).Some? ensures NameOf(lower, incoming[k]) in once {
      MappableIsNamed(lower, existing, incoming, k);
    }
    NothingNew(lower, once, incoming);
    SecondSkip(lower, once, incoming);
    forall k | 0 <= k < |incoming| ensures VerdictAt(lower, once, incoming, k) in {Unmapped, Synced, WithExisting} {
      assert MapServer(incoming[k].server).Some? ==> NameOf(lower, incoming[k]) in once;
    }
  }

  lemma SecondSkip(lower: Lower, once: Upstreams, incoming: seq<Incoming>)
    requires Detect(lower, once, incoming).noConflict == []
    ensures var again := Merge(lower, once, incoming, Always(Skip));
            again.Some? && again.value.upstreams == once && AllSkipped(again.value.changes)
  {
    MergeParts(lower, once, incoming, Always(Skip));
    SkipsSkip(lower, Detect(lower, once, incoming).conflicts, NamesOf(lower, once, incoming));
    assert AddsOf(lower, once, incoming) == [];
    SkippedDoNothing(once, [], Resolutions(lower, once, incoming, Always(Skip)).value);
  }

  // ------------------------------------------------------------------ what conflicts are about, and added servers

  /** The server of the last conflict about a name. */
  function LastConflict(conflicts: seq<Conflict>, name: string): Option<External> {
    if conflicts == [] then None
    else if conflicts[|conflicts| - 1].serverName == name then Some(conflicts[|conflicts| - 1].incoming)
    else LastConflict(conflicts[..|conflicts| - 1], name)
  }

  ghost predicate WellNamed(lower: Lower, conflicts: seq<Conflict>) {
    forall i :: 0 <= i < |conflicts| ==>
      conflicts[i].serverName == NormalizeServerName(lower, conflicts[i].incoming.name)
      && MapServer(conflicts[i].incoming).Some?
  }

  lemma {:induction false} ApplyConcat(existing: Upstreams, a: seq<Change>, b: seq<Change>)
    ensures ApplyAll(existing, a + b) == ApplyAll(ApplyAll(existing, a), b)
  {
    if b == [] {
      assert a + b == a;
    } else {
      ApplyConcat(existing, a, b[..|b| - 1]);
      assert (a + b)[..|a + b| - 1] == a + b[..|b| - 1];
    }
  }

  /** A new server is stored under its name as mapped twice. */
  lemma OwnerIsStored(lower: Lower, existing: Upstreams, incoming: seq<Incoming>, name: string)
    requires name in Detect(lower, existing, incoming).owners
    ensures var d, after := Detect(lower, existing, incoming), ApplyAll(existing, AddsOf(lower, existing, incoming));
            && MapServer(d.owners[name].server).Some?
            && name in after && after[name] == Remapped(name, MapServer(d.owners[name].server).value)
  {
    var d, adds := Detect(lower, existing, incoming), AddsOf(lower, existing, incoming);
    DetectShape(lower, existing, incoming);
    OwnersMapped(lower, existing, incoming);
    AddsStore(lower, existing, d);
    ApplyStores(existing, adds);
    var i :| 0 <= i < |d.noConflict| && FreshName(lower, d.noConflict[i]) == name;
    assert Stored(ApplyAll(existing, adds), adds[i]);
    MapsAgain(name, d.owners[name].server);
  }
}
