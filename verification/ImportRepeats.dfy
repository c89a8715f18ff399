/** What a merge leaves under each name, and what merging the same servers again does. */
module ImportRepeats {
  import opened Common
  import opened EnvReferences
  import opened ServerNames
  import opened ServerMapping
  import opened ImportMerge
  import opened ImportTheorems
  import opened ImportRenames

  // ------------------------------------------------------------------ what a merge leaves under a name

  function At(upstreams: Upstreams, n: string): Option<Upstream> {
    if n in upstreams then Some(upstreams[n]) else None
  }

  /** What a name holds before conflicts are resolved: the existing upstream, or the new server mapped twice. */
  function HeldBefore(existing: Upstreams, d: Detection, n: string): Option<Upstream> {
    if n in existing then Some(existing[n])
    else if n in d.owners then
      match MapServer(d.owners[n].server)
      case Some(config) => Some(Remapped(n, config))
      case None => None
    else None
  }

  /** What the conflicts about a name make of it. */
  function HeldAfter(
      before: Option<Upstream>, conflicts: seq<Conflict>, choose: string -> Strategy, n: string): Option<Upstream>
  {
    match LastConflict(conflicts, n)
    case Some(server) => if choose(n).Replace? then MapServer(server) else before
    case None => before
  }

  lemma {:induction false} LastConflictHead(c: Conflict, rest: seq<Conflict>, n: string)
    ensures LastConflict([c] + rest, n) ==
            match LastConflict(rest, n)
            case Some(server) => Some(server)
            case None => if c.serverName == n then Some(c.incoming) else None
  {
    var all := [c] + rest;
    if rest == [] {
      assert all == [c] && all[..0] == [];
    } else {
      LastConflictHead(c, rest[..|rest| - 1], n);
      assert all[..|all| - 1] == [c] + rest[..|rest| - 1];
    }
  }

  ghost predicate Mapped(lower: Lower, c: Conflict) {
    c.serverName == NormalizeServerName(lower, c.incoming.name) && MapServer(c.incoming).Some?
  }

  /** Resolving one conflict changes a name in use only by replacing it. */
  lemma {:induction false} ResolvedOne(
      lower: Lower, c: Conflict, choose: string -> Strategy, names: set<string>, before: Upstreams, change: Change,
      more: set<string>, n: string)
    requires Mapped(lower, c) && n in names && Resolve(lower, c, choose(c.serverName), names) == Some((change, more))
    ensures n in more
    ensures At(ApplyOne(before, change), n) ==
            if c.serverName == n && choose(n).Replace? then MapServer(c.incoming) else At(before, n)
  {
    UniqueNameExact(NormalizeServerName(lower, c.incoming.name), names);
  }

  lemma {:induction false} ResolveSplit(
      lower: Lower, conflicts: seq<Conflict>, choose: string -> Strategy, names: set<string>, rs: seq<Change>)
    returns (change: Change, more: set<string>, rest: seq<Change>)
    requires conflicts != [] && ResolveAll(lower, conflicts, choose, names) == Some(rs)
    ensures Resolve(lower, conflicts[0], choose(conflicts[0].serverName), names) == Some((change, more))
    ensures ResolveAll(lower, conflicts[1..], choose, more) == Some(rest) && rs == [change] + rest
  {
    var (first, names') := Resolve(lower, conflicts[0], choose(conflicts[0].serverName), names).value;
    change, more := first, names';
    rest := ResolveAll(lower, conflicts[1..], choose, more).value;
  }

  lemma {:induction false} ApplyHead(before: Upstreams, change: Change, rest: seq<Change>)
    ensures ApplyAll(before, [change] + rest) == ApplyAll(ApplyOne(before, change), rest)
  {
    ApplyConcat(before, [change], rest);
    assert [change][..0] == [];
  }

  /** Resolving all conflicts leaves a name in use to the last conflict about it if it is replaced, and alone if not. */
  lemma {:induction false} ResolvedAt(
      lower: Lower, conflicts: seq<Conflict>, choose: string -> Strategy, names: set<string>, before: Upstreams,
      rs: seq<Change>, n: string)
    requires WellNamed(lower, conflicts) && n in names && ResolveAll(lower, conflicts, choose, names) == Some(rs)
    ensures At(ApplyAll(before, rs), n) == HeldAfter(At(before, n), conflicts, choose, n)
  {
    if conflicts != [] {
      var c := conflicts[0];
      var change, more, rest := ResolveSplit(lower, conflicts, choose, names, rs);
      ResolvedOne(lower, c, choose, names, before, change, more, n);
      ResolvedAt(lower, conflicts[1..], choose, more, ApplyOne(before, change), rest, n);
      ApplyHead(before, change, rest);
      LastConflictHead(c, conflicts[1..], n);
      assert conflicts == [c] + conflicts[1..];
    }
  }

  /** After the new servers are added. */
  lemma {:induction false} AddedAt(lower: Lower, existing: Upstreams, incoming: seq<Incoming>, n: string)
    requires n in existing || n in Detect(lower, existing, incoming).owners
    ensures At(ApplyAll(existing, AddsOf(lower, existing, incoming)), n)
            == HeldBefore(existing, Detect(lower, existing, incoming), n)
    ensures n in NamesOf(lower, existing, incoming)
    ensures HeldBefore(existing, Detect(lower, existing, incoming), n).Some?
  {
    DetectShape(lower, existing, incoming);
    AddsStore(lower, existing, Detect(lower, existing, incoming));
    if n in existing {
      ApplyStores(existing, AddsOf(lower, existing, incoming));
    } else {
      OwnerIsStored(lower, existing, incoming, n);
    }
  }

  lemma {:induction false} ConflictsWellNamed(lower: Lower, existing: Upstreams, incoming: seq<Incoming>)
    ensures WellNamed(lower, Detect(lower, existing, incoming).conflicts)
  {
    DetectShape(lower, existing, incoming);
  }

  /**
   * Whatever strategies are chosen: under each name that exists or is new a merge leaves the server of the last
   * conflict about it, if that name is replaced, and otherwise what it held before conflicts were resolved.
   */
  lemma {:induction false} MergeHolds(
      lower: Lower, existing: Upstreams, incoming: seq<Incoming>, choose: string -> Strategy, m: Merged, n: string)
    requires Merge(lower, existing, incoming, choose) == Some(m)
    requires n in existing || n in Detect(lower, existing, incoming).owners
    ensures var d := Detect(lower, existing, incoming);
            At(m.upstreams, n) == HeldAfter(HeldBefore(existing, d, n), d.conflicts, choose, n)
    ensures n in m.upstreams
  {
    MergeParts(lower, existing, incoming, choose);
    var adds, rs := AddsOf(lower, existing, incoming), Resolutions(lower, existing, incoming, choose).value;
    ApplyConcat(existing, adds, rs);
    AddedAt(lower, existing, incoming, n);
    ConflictsWellNamed(lower, existing, incoming);
    ResolvedAt(lower, Detect(lower, existing, incoming).conflicts, choose, NamesOf(lower, existing, incoming),
               ApplyAll(existing, adds), rs, n);
    LastIsMapped(lower, Detect(lower, existing, incoming).conflicts, n);
  }

  lemma {:induction false} LastIsMapped(lower: Lower, conflicts: seq<Conflict>, n: string)
    requires WellNamed(lower, conflicts)
    ensures LastConflict(conflicts, n).Some? ==> MapServer(LastConflict(conflicts, n).value).Some?
  {
    if conflicts != [] {
      LastIsMapped(lower, conflicts[..|conflicts| - 1], n);
    }
  }

  // ------------------------------------------------------------------ replacing

  ghost predicate NamesWithin(changes: seq<Change>, names: set<string>) {
    forall i :: 0 <= i < |changes| ==> changes[i].serverName in names
  }

  lemma {:induction false} ReplaceResolves(lower: Lower, conflicts: seq<Conflict>, names: set<string>)
    requires NamesTaken(lower, conflicts, names)
    ensures var rs := ResolveAll(lower, conflicts, Always(Replace), names); rs.Some? && NamesWithin(rs.value, names)
  {
    if conflicts != [] {
      ReplaceResolves(lower, conflicts[1..], names);
    }
  }

  lemma {:induction false} ApplyWithin(before: Upstreams, changes: seq<Change>, names: set<string>)
    requires before.Keys <= names && NamesWithin(changes, names)
    ensures ApplyAll(before, changes).Keys <= names
  {
    if changes != [] {
      ApplyWithin(before, changes[..|changes| - 1], names);
    }
  }

  lemma {:induction false} ConcatWithin(existing: Upstreams, adds: seq<Change>, rs: seq<Change>)
    requires NamesWithin(rs, existing.Keys + ChangeNames(adds))
    ensures ApplyAll(existing, adds + rs).Keys <= existing.Keys + ChangeNames(adds)
  {
    forall i | 0 <= i < |adds| ensures adds[i].serverName in ChangeNames(adds) {
    }
    ApplyWithin(existing, adds + rs, existing.Keys + ChangeNames(adds));
  }

  /** A replace merge never throws, and resolves conflicts under names in use. */
  lemma {:induction false} ReplaceMerges(lower: Lower, existing: Upstreams, incoming: seq<Incoming>)
    returns (adds: seq<Change>, rs: seq<Change>, m: Merged)
    ensures Merge(lower, existing, incoming, Always(Replace)) == Some(m)
    ensures m.upstreams == ApplyAll(existing, adds + rs) && NamesWithin(rs, existing.Keys + ChangeNames(adds))
    ensures adds == AddsOf(lower, existing, incoming)
  {
    MergeParts(lower, existing, incoming, Always(Replace));
    ConflictsNamed(lower, existing, incoming);
    ReplaceResolves(lower, Detect(lower, existing, incoming).conflicts, NamesOf(lower, existing, incoming));
    adds, rs := AddsOf(lower, existing, incoming), Resolutions(lower, existing, incoming, Always(Replace)).value;
    m := Merge(lower, existing, incoming, Always(Replace)).value;
  }

  lemma {:induction false} AddsNameTheOwners(lower: Lower, existing: Upstreams, incoming: seq<Incoming>)
    ensures ChangeNames(AddsOf(lower, existing, incoming)) == Detect(lower, existing, incoming).owners.Keys
  {
    DetectShape(lower, existing, incoming);
    AddsStore(lower, existing, Detect(lower, existing, incoming));
  }

  lemma {:induction false} ReplaceAddsNoNames(lower: Lower, existing: Upstreams, incoming: seq<Incoming>)
    returns (m: Merged)
    ensures Merge(lower, existing, incoming, Always(Replace)) == Some(m)
    ensures m.upstreams.Keys <= existing.Keys + Detect(lower, existing, incoming).owners.Keys
  {
    var adds, rs;
    adds, rs, m := ReplaceMerges(lower, existing, incoming);
    ConcatWithin(existing, adds, rs);
    AddsNameTheOwners(lower, existing, incoming);
  }

  lemma {:induction false} LastConflictNamed(conflicts: seq<Conflict>, name: string, names: set<string>)
    requires forall i :: 0 <= i < |conflicts| ==> conflicts[i].serverName in names
    ensures LastConflict(conflicts, name).Some? ==> name in names
  {
    if conflicts != [] {
      LastConflictNamed(conflicts[..|conflicts| - 1], name, names);
    }
  }

  /**
   * After a replace merge every name has the server of its last conflict; names without a conflict are as they were, or
   * new.
   */
  lemma {:induction false} ReplaceTakesTheLast(
      lower: Lower, existing: Upstreams, incoming: seq<Incoming>, name: string)
    ensures var d, m := Detect(lower, existing, incoming), Merge(lower, existing, incoming, Always(Replace));
            && m.Some?
            && (name in m.value.upstreams <==> name in existing || name in d.owners)
            && match LastConflict(d.conflicts, name)
               case Some(server) =>
                 && MapServer(server).Some? && name in m.value.upstreams
                 && m.value.upstreams[name] == MapServer(server).value
               case None =>
                 && (name in existing ==> m.value.upstreams[name] == existing[name])
                 && (name in d.owners ==>
                       && MapServer(d.owners[name].server).Some?
                       && m.value.upstreams[name] == Remapped(name, MapServer(d.owners[name].server).value))
  {
    var d := Detect(lower, existing, incoming);
    var m := ReplaceAddsNoNames(lower, existing, incoming);
    ConflictShapeNames(lower, existing, incoming, name);
    if name in existing || name in d.owners {
      MergeHolds(lower, existing, incoming, Always(Replace), m, name);
    }
    if name in d.owners {
      OwnerIsStored(lower, existing, incoming, name);
    }
  }

  lemma {:induction false} ConflictShapeNames(
      lower: Lower, existing: Upstreams, incoming: seq<Incoming>, name: string)
    ensures var d := Detect(lower, existing, incoming);
            && (LastConflict(d.conflicts, name).Some? ==> name in existing || name in d.owners)
            && (name in d.owners ==> name !in existing)
  {
    var d := Detect(lower, existing, incoming);
    DetectShape(lower, existing, incoming);
    LastConflictNamed(d.conflicts, name, existing.Keys + d.owners.Keys);
  }

  // ------------------------------------------------------------------ the holder of a name

  lemma {:induction false} OwnerKept(lower: Lower, existing: Upstreams, d: Detection, x: Incoming, n: string)
    requires n in d.owners
    ensures var next := DetectOne(lower, existing, d, x); n in next.owners && next.owners[n] == d.owners[n]
  {
  }

  lemma {:induction false} OwnersStay(
      lower: Lower, existing: Upstreams, incoming: seq<Incoming>, k: nat, n: string)
    requires k <= |incoming| && n in Detect(lower, existing, incoming[..k]).owners
    ensures var d := Detect(lower, existing, incoming);
            n in d.owners && d.owners[n] == Detect(lower, existing, incoming[..k]).owners[n]
  {
    if k == |incoming| {
      assert incoming[..k] == incoming;
    } else {
      var init := incoming[..|incoming| - 1];
      assert init[..k] == incoming[..k];
      OwnersStay(lower, existing, init, k, n);
      OwnerKept(lower, existing, Detect(lower, existing, init), incoming[|incoming| - 1], n);
    }
  }

  /** A new server is the holder of its name. */
  lemma {:induction false} NewIsOwner(lower: Lower, existing: Upstreams, incoming: seq<Incoming>, k: nat)
    requires k < |incoming| && VerdictAt(lower, existing, incoming, k).New?
    ensures var d, name := Detect(lower, existing, incoming), NameOf(lower, incoming[k]);
            name !in existing && name in d.owners && d.owners[name] == incoming[k]
  {
    DetectUpTo(lower, existing, incoming, k);
    OwnersStay(lower, existing, incoming, k + 1, NameOf(lower, incoming[k]));
  }

  // ------------------------------------------------------------------ in sync after adding

  /** What a server is judged against a config that has its name. */
  function Compared(held: Upstream, x: Incoming): Verdict {
    match MapServer(x.server)
    case None => Unmapped
    case Some(config) => if AreConfigsEqual(held, config) then Synced else WithExisting
  }

  lemma {:induction false} JudgedByHeld(
      lower: Lower, once: Upstreams, owners: map<string, Incoming>, x: Incoming, held: Upstream)
    requires At(once, NameOf(lower, x)) == Some(held)
    ensures Judge(lower, once, owners, x) == Compared(held, x)
  {
  }

  /**
   * Whatever strategies are chosen, a server that a merge added is found in sync by the next one exactly when no value
   * of its environment or headers has nested references: what is stored was normalised twice, what it is compared with
   * once. Only if a later server of the same name has replaced it, it has to be equal to that.
   */
  lemma {:induction false} AddedIsInSyncExactly(
      lower: Lower, existing: Upstreams, incoming: seq<Incoming>, choose: string -> Strategy, m: Merged, k: nat)
    requires Merge(lower, existing, incoming, choose) == Some(m)
    requires k < |incoming| && VerdictAt(lower, existing, incoming, k).New?
    ensures var name, x := NameOf(lower, incoming[k]), incoming[k];
            VerdictAt(lower, m.upstreams, incoming, k) == Synced <==>
              match LastConflict(Detect(lower, existing, incoming).conflicts, name)
              case Some(server) =>
                if choose(name).Replace?
                then MapServer(server).Some? && Compared(MapServer(server).value, x) == Synced
                else SteadyServer(x.server)
              case None => SteadyServer(x.server)
  {
    var name := NameOf(lower, incoming[k]);
    NewIsOwner(lower, existing, incoming, k);
    MergeHolds(lower, existing, incoming, choose, m, name);
    JudgedByHeld(lower, m.upstreams, Detect(lower, m.upstreams, incoming[..k]).owners, incoming[k], m.upstreams[name]);
    RemappedEqualExactly(name, incoming[k].server);
  }

  // ------------------------------------------------------------------ renaming again

  /** The config holds under the name what it held before conflicts were resolved. */
  ghost predicate Holds(existing: Upstreams, d: Detection, once: Upstreams, n: string) {
    n in once && HeldBefore(existing, d, n) == Some(once[n])
  }

  /** The config holds what existed and what was new. */
  ghost predicate Settled(lower: Lower, existing: Upstreams, incoming: seq<Incoming>, once: Upstreams) {
    var d := Detect(lower, existing, incoming);
    forall n :: n in existing || n in d.owners ==> Holds(existing, d, once, n)
  }

  /**
   * What becomes of a server when a rename merge has already seen it. A conflict with an existing upstream remains one.
   * A server that was new, or in conflict with a new one, is in sync with that one or in conflict with it now.
   */
  ghost function Again(lower: Lower, existing: Upstreams, incoming: seq<Incoming>, k: nat): Verdict
    requires k < |incoming|
  {
    var early, x := Detect(lower, existing, incoming[..k]), incoming[k];
    match Judge(lower, existing, early.owners, x)
    case Unmapped => Unmapped
    case Synced => Synced
    case WithExisting => WithExisting
    case New => if SteadyServer(x.server) then Synced else WithExisting
    case WithIncoming =>
      var name := NameOf(lower, x);
      match MapServer(early.owners[name].server)
      case Some(config) => Compared(Remapped(name, config), x)
      case None => Unmapped
  }

  lemma {:induction false} SettledVerdict(
      lower: Lower, existing: Upstreams, incoming: seq<Incoming>, once: Upstreams, k: nat)
    requires Settled(lower, existing, incoming, once) && k < |incoming|
    ensures VerdictAt(lower, once, incoming, k) == Again(lower, existing, incoming, k)
  {
    var early, x, name := Detect(lower, existing, incoming[..k]), incoming[k], NameOf(lower, incoming[k]);
    var owners := Detect(lower, once, incoming[..k]).owners;
    match Judge(lower, existing, early.owners, x)
    case Unmapped =>
    case New =>
      NewIsOwner(lower, existing, incoming, k);
      HeldByOwner(lower, existing, incoming, once, name, x);
      JudgedByHeld(lower, once, owners, x, Remapped(name, MapServer(x.server).value));
      RemappedEqualExactly(name, x.server);
    case WithIncoming =>
      OwnersStay(lower, existing, incoming, k, name);
      HeldByOwner(lower, existing, incoming, once, name, early.owners[name]);
      JudgedByHeld(lower, once, owners, x, Remapped(name, MapServer(early.owners[name].server).value));
    case _ =>
      assert Holds(existing, Detect(lower, existing, incoming), once, name);
      JudgedByHeld(lower, once, owners, x, existing[name]);
  }

  lemma {:induction false} HeldByOwner(
      lower: Lower, existing: Upstreams, incoming: seq<Incoming>, once: Upstreams, n: string, owner: Incoming)
    requires Settled(lower, existing, incoming, once) && n !in existing
    requires var d := Detect(lower, existing, incoming); n in d.owners && d.owners[n] == owner
    ensures MapServer(owner.server).Some? && At(once, n) == Some(Remapped(n, MapServer(owner.server).value))
  {
    assert Holds(existing, Detect(lower, existing, incoming), once, n);
  }

  /** The k-th server is in conflict when it comes again. */
  ghost predicate ConflictsAgain(lower: Lower, existing: Upstreams, incoming: seq<Incoming>, k: nat) {
    k < |incoming| && Again(lower, existing, incoming, k).WithExisting?
  }

  /** How many numbers below n have the property. */
  ghost function CountOf(p: nat -> bool, n: nat): nat {
    if n == 0 then 0 else CountOf(p, n - 1) + (if p(n - 1) then 1 else 0)
  }

  lemma {:induction false} CountNothing(p: nat -> bool, n: nat)
    ensures CountOf(p, n) == 0 <==> forall k: nat :: k < n ==> !p(k)
  {
    if n > 0 {
      CountNothing(p, n - 1);
    }
  }

  ghost function AgainAt(lower: Lower, existing: Upstreams, incoming: seq<Incoming>): nat -> bool {
    (k: nat) => ConflictsAgain(lower, existing, incoming, k)
  }

  /** How many of the servers are in conflict when they come again. */
  ghost function AgainCount(lower: Lower, existing: Upstreams, incoming: seq<Incoming>): nat {
    CountOf(AgainAt(lower, existing, incoming), |incoming|)
  }

  /** The property says whether the k-th server is to be stored. */
  ghost predicate SaysAt(lower: Lower, once: Upstreams, incoming: seq<Incoming>, p: nat -> bool, k: nat) {
    k < |incoming| && (p(k) <==> ToBeStored(VerdictAt(lower, once, incoming, k)))
  }

  ghost predicate SaysStored(lower: Lower, once: Upstreams, incoming: seq<Incoming>, p: nat -> bool) {
    forall k: nat :: k < |incoming| ==> SaysAt(lower, once, incoming, p, k)
  }

  ghost predicate CountedTo(lower: Lower, once: Upstreams, incoming: seq<Incoming>, p: nat -> bool, n: nat) {
    n <= |incoming| && StoredCount(lower, once, incoming[..n]) == CountOf(p, n)
  }

  lemma {:induction false} CountStep(lower: Lower, once: Upstreams, incoming: seq<Incoming>, p: nat -> bool, k: nat)
    requires SaysAt(lower, once, incoming, p, k) && CountedTo(lower, once, incoming, p, k)
    ensures CountedTo(lower, once, incoming, p, k + 1)
  {
    StoredCountNext(lower, once, incoming, k);
  }

  lemma {:induction false} NothingCounted(lower: Lower, once: Upstreams, incoming: seq<Incoming>, p: nat -> bool)
    ensures CountedTo(lower, once, incoming, p, 0)
  {
  }

  lemma {:induction false} StoredAreCounted(
      lower: Lower, once: Upstreams, incoming: seq<Incoming>, p: nat -> bool, n: nat)
    requires SaysStored(lower, once, incoming, p) && n <= |incoming|
    ensures CountedTo(lower, once, incoming, p, n)
  {
    if n == 0 {
      NothingCounted(lower, once, incoming, p);
    } else {
      StoredAreCounted(lower, once, incoming, p, n - 1);
      assert SaysAt(lower, once, incoming, p, n - 1);
      CountStep(lower, once, incoming, p, n - 1);
    }
  }

  lemma {:induction false} SettledFlags(lower: Lower, existing: Upstreams, incoming: seq<Incoming>, once: Upstreams)
    requires Settled(lower, existing, incoming, once)
    ensures SaysStored(lower, once, incoming, AgainAt(lower, existing, incoming))
  {
    var p := AgainAt(lower, existing, incoming);
    forall k: nat | k < |incoming| ensures SaysAt(lower, once, incoming, p, k) {
      SettledFlag(lower, existing, incoming, once, k);
    }
  }

  lemma {:induction false} SettledCount(lower: Lower, existing: Upstreams, incoming: seq<Incoming>, once: Upstreams)
    requires Settled(lower, existing, incoming, once)
    ensures StoredCount(lower, once, incoming) == AgainCount(lower, existing, incoming)
  {
    SettledFlags(lower, existing, incoming, once);
    StoredAreCounted(lower, once, incoming, AgainAt(lower, existing, incoming), |incoming|);
    assert incoming[..|incoming|] == incoming;
  }

  lemma {:induction false} StoredCountNext(lower: Lower, once: Upstreams, incoming: seq<Incoming>, k: nat)
    requires k < |incoming|
    ensures StoredCount(lower, once, incoming[..k + 1])
            == StoredCount(lower, once, incoming[..k])
               + (if ToBeStored(VerdictAt(lower, once, incoming, k)) then 1 else 0)
  {
    assert incoming[..k + 1][..k] == incoming[..k];
  }

  lemma {:induction false} SettledFlag(
      lower: Lower, existing: Upstreams, incoming: seq<Incoming>, once: Upstreams, k: nat)
    requires Settled(lower, existing, incoming, once) && k < |incoming|
    ensures ToBeStored(VerdictAt(lower, once, incoming, k)) <==> ConflictsAgain(lower, existing, incoming, k)
  {
    SettledVerdict(lower, existing, incoming, once, k);
    AgainShape(lower, existing, incoming, k);
  }

  lemma {:induction false} AgainShape(lower: Lower, existing: Upstreams, incoming: seq<Incoming>, k: nat)
    requires k < |incoming|
    ensures ToBeStored(Again(lower, existing, incoming, k)) <==> Again(lower, existing, incoming, k).WithExisting?
  {
  }

  /** A rename merge settles. */
  lemma {:induction false} RenameSettles(lower: Lower, existing: Upstreams, incoming: seq<Incoming>, once: Upstreams)
    requires RenamesTo(lower, existing, incoming, once)
    ensures Settled(lower, existing, incoming, once)
  {
    var d, m := Detect(lower, existing, incoming), Merge(lower, existing, incoming, Always(Rename)).value;
    forall n | n in existing || n in d.owners ensures Holds(existing, d, once, n) {
      MergeHolds(lower, existing, incoming, Always(Rename), m, n);
    }
  }

  lemma {:induction false} ExtendedIsSettled(
      lower: Lower, existing: Upstreams, incoming: seq<Incoming>, once: Upstreams, more: Upstreams)
    requires Settled(lower, existing, incoming, once) && Extends(more, once)
    ensures Settled(lower, existing, incoming, more)
  {
    var d := Detect(lower, existing, incoming);
    forall n | n in existing || n in d.owners ensures Holds(existing, d, more, n) {
      assert Holds(existing, d, once, n);
    }
  }

  /** A rename merge makes the one config of the other. */
  ghost predicate RenamesTo(lower: Lower, config: Upstreams, incoming: seq<Incoming>, more: Upstreams) {
    var m := Merge(lower, config, incoming, Always(Rename)); m.Some? && m.value.upstreams == more
  }

  /** A run of rename merges of the same servers. */
  ghost predicate RenameRun(lower: Lower, incoming: seq<Incoming>, configs: seq<Upstreams>) {
    forall i: nat :: i + 1 < |configs| ==> RenamesTo(lower, configs[i], incoming, configs[i + 1])
  }

  /** One more merge of servers that were merged before. */
  lemma {:induction false} OneMoreRename(
      lower: Lower, existing: Upstreams, incoming: seq<Incoming>, config: Upstreams, more: Upstreams)
    requires Settled(lower, existing, incoming, config) && RenamesTo(lower, config, incoming, more)
    ensures Settled(lower, existing, incoming, more) && Extends(more, config)
    ensures |more| == |config| + AgainCount(lower, existing, incoming)
  {
    RenameKeepsAndCounts(lower, config, incoming);
    SettledCount(lower, existing, incoming, config);
    ExtendedIsSettled(lower, existing, incoming, config, more);
  }

  lemma {:induction false} RunSettles(lower: Lower, incoming: seq<Incoming>, configs: seq<Upstreams>, i: nat)
    requires RenameRun(lower, incoming, configs) && 1 <= i < |configs|
    ensures Settled(lower, configs[0], incoming, configs[i])
  {
    assert RenamesTo(lower, configs[i - 1], incoming, configs[i - 1 + 1]);
    if i == 1 {
      RenameSettles(lower, configs[0], incoming, configs[1]);
    } else {
      RunSettles(lower, incoming, configs, i - 1);
      OneMoreRename(lower, configs[0], incoming, configs[i - 1], configs[i]);
    }
  }

  /**
   * However often the same servers are merged, renaming: every repetition keeps all entries and adds the same number,
   * one for each server that is in conflict when it comes again.
   */
  lemma {:induction false} RepeatedRenamesGrow(
      lower: Lower, incoming: seq<Incoming>, configs: seq<Upstreams>, i: nat)
    requires RenameRun(lower, incoming, configs) && 1 <= i && i + 1 < |configs|
    ensures Extends(configs[i + 1], configs[i])
    ensures |configs[i + 1]| == |configs[i]| + AgainCount(lower, configs[0], incoming)
  {
    RunSettles(lower, incoming, configs, i);
    OneMoreRename(lower, configs[0], incoming, configs[i], configs[i + 1]);
  }

  /** A second rename merge changes nothing exactly when no server is in conflict when it comes again. */
  lemma {:induction false} RenameIsIdempotentExactly(
      lower: Lower, existing: Upstreams, incoming: seq<Incoming>, once: Upstreams, twice: Upstreams)
    requires RenamesTo(lower, existing, incoming, once) && RenamesTo(lower, once, incoming, twice)
    ensures twice == once <==> !exists k: nat :: ConflictsAgain(lower, existing, incoming, k)
  {
    RenameSettles(lower, existing, incoming, once);
    OneMoreRename(lower, existing, incoming, once, twice);
    SameSizeSame(twice, once);
    NoneAgain(lower, existing, incoming);
  }

  lemma {:induction false} NoneAgain(lower: Lower, existing: Upstreams, incoming: seq<Incoming>)
    ensures AgainCount(lower, existing, incoming) == 0 <==>
            !exists k: nat :: ConflictsAgain(lower, existing, incoming, k)
  {
    var p := AgainAt(lower, existing, incoming);
    CountNothing(p, |incoming|);
    if k: nat :| ConflictsAgain(lower, existing, incoming, k) {
      assert p(k);
    }
  }

  lemma {:induction false} SameSizeSame(more: Upstreams, config: Upstreams)
    requires Extends(more, config)
    ensures more == config <==> |more| == |config|
  {
    assert config.Keys <= more.Keys;
    if |more| == |config| {
      SubsetSize(config.Keys, more.Keys);
      assert |more.Keys - config.Keys| == |more.Keys| - |config.Keys|;
      assert more.Keys == config.Keys;
    }
  }

  // ------------------------------------------------------------------ a server that is stored over and over

  function OneUpstream(): Upstreams {
    map["x" := MapServer(Running("x", "old")).value]
  }

  function OtherServer(): Incoming {
    Incoming(Running("x", "new"), "")
  }

  lemma {:induction false} OtherConflicts(lower: Lower, owners: map<string, Incoming>)
    requires lower("x") == "x"
    ensures Judge(lower, OneUpstream(), owners, OtherServer()) == WithExisting
  {
    NormalNameFixed(lower, "x");
  }

  lemma {:induction false} OneIsCounted(lower: Lower)
    requires lower("x") == "x"
    ensures StoredCount(lower, OneUpstream(), [OtherServer()]) == 1
    ensures AgainCount(lower, OneUpstream(), [OtherServer()]) == 1
  {
    var all := [OtherServer()];
    assert all[..0] == [];
    OtherConflicts(lower, Detect(lower, OneUpstream(), []).owners);
    assert ConflictsAgain(lower, OneUpstream(), all, 0);
    var p := AgainAt(lower, OneUpstream(), all);
    assert CountOf(p, 1) == CountOf(p, 0) + (if p(0) then 1 else 0);
  }

  lemma {:induction false} RenameOnce(lower: Lower, config: Upstreams, incoming: seq<Incoming>)
    returns (more: Upstreams)
    requires |config| + |incoming| <= LAST_SUFFIX
    ensures RenamesTo(lower, config, incoming, more)
    ensures |more| == |config| + StoredCount(lower, config, incoming)
  {
    RenameSucceeds(lower, config, incoming);
    RenameKeepsAndCounts(lower, config, incoming);
    more := Merge(lower, config, incoming, Always(Rename)).value.upstreams;
  }

  lemma {:induction false} TwoRenames(lower: Lower, existing: Upstreams, incoming: seq<Incoming>)
    returns (once: Upstreams, twice: Upstreams)
    requires |existing| + 2 * |incoming| <= LAST_SUFFIX
    ensures RenamesTo(lower, existing, incoming, once) && RenamesTo(lower, once, incoming, twice)
    ensures |once| == |existing| + StoredCount(lower, existing, incoming)
    ensures |twice| == |once| + AgainCount(lower, existing, incoming)
  {
    once := RenameOnce(lower, existing, incoming);
    StoredAtMostAll(lower, existing, incoming);
    twice := RenameOnce(lower, once, incoming);
    RenameSettles(lower, existing, incoming, once);
    SettledCount(lower, existing, incoming, once);
  }

  /** One upstream and one server of the same name with another command: merging it twice stores it twice. */
  lemma {:induction false} StoredTwice(lower: Lower) returns (once: Upstreams, twice: Upstreams)
    requires lower("x") == "x"
    ensures RenamesTo(lower, OneUpstream(), [OtherServer()], once) && RenamesTo(lower, once, [OtherServer()], twice)
    ensures |once| == 2 && |twice| == 3
  {
    once, twice := TwoRenames(lower, OneUpstream(), [OtherServer()]);
    OneIsCounted(lower);
  }
}
