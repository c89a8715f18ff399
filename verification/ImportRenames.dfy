/** The names that renaming gives: when they are valid keys, and when renaming runs out of them. */
module ImportRenames {
  import opened Common
  import opened ServerNames
  import opened ServerMapping
  import opened ImportMerge
  import opened ImportTheorems

  lemma {:induction false} ChangeNamesHead(change: Change, changes: seq<Change>)
    ensures ChangeNames([change] + changes) == {change.serverName} + ChangeNames(changes)
  {
    var all := [change] + changes;
    assert all[0] == change && forall i :: 0 <= i < |changes| ==> all[i + 1] == changes[i];
    forall n | n in ChangeNames(changes) ensures n in ChangeNames(all) {
      var i :| 0 <= i < |changes| && changes[i].serverName == n;
      assert all[i + 1].serverName == n;
    }
  }

  function RenameTo(lower: Lower, c: Conflict, name: string): Change {
    Change(Renamed, name, Some(NormalizeServerName(lower, c.incoming.name)), c.source, c.incoming)
  }

  /** Resolving the first conflict, and the others with its new name in use. */
  lemma {:induction false} RenameHead(lower: Lower, conflicts: seq<Conflict>, names: set<string>)
    requires conflicts != []
    ensures var base := NormalizeServerName(lower, conflicts[0].incoming.name);
            ResolveAll(lower, conflicts, Always(Rename), names) ==
            match UniqueName(base, names)
            case None => None
            case Some(unique) =>
              Prepend([RenameTo(lower, conflicts[0], unique)],
                      ResolveAll(lower, conflicts[1..], Always(Rename), names + {unique}))
  {
  }

  /** The names of the first c changes. */
  ghost function NamesBefore(changes: seq<Change>, c: nat): set<string> {
    set i: nat | i < c && i < |changes| :: changes[i].serverName
  }

  lemma {:induction false} NamesBeforeHead(first: Change, rest: seq<Change>, c: nat)
    ensures NamesBefore([first] + rest, c + 1) == {first.serverName} + NamesBefore(rest, c)
  {
    var all := [first] + rest;
    assert all[0] == first && forall i: nat :: i < |rest| ==> all[i + 1] == rest[i];
    forall n | n in NamesBefore(rest, c) ensures n in NamesBefore(all, c + 1) {
      var i: nat :| i < c && i < |rest| && rest[i].serverName == n;
      assert all[i + 1].serverName == n;
    }
  }

  lemma {:induction false} NamesBeforeConcat(a: seq<Change>, b: seq<Change>, c: nat)
    ensures NamesBefore(a + b, |a| + c) == ChangeNames(a) + NamesBefore(b, c)
  {
    var all := a + b;
    forall n | n in ChangeNames(a) ensures n in NamesBefore(all, |a| + c) {
      var i :| 0 <= i < |a| && a[i].serverName == n;
      assert all[i].serverName == n;
    }
    forall n | n in NamesBefore(b, c) ensures n in NamesBefore(all, |a| + c) {
      var i: nat :| i < c && i < |b| && b[i].serverName == n;
      assert all[|a| + i].serverName == n;
    }
  }

  /** The c-th change has the unique name for its base, with `taken` and the names of the earlier changes in use. */
  ghost predicate UniqueAt(taken: set<string>, changes: seq<Change>, c: nat, base: string) {
    && c < |changes| && changes[c].originalName == Some(base)
    && UniqueName(base, taken + NamesBefore(changes, c)) == Some(changes[c].serverName)
  }

  /** It is a valid key exactly when the base has a free suffix that fits. */
  ghost predicate ValidExactly(taken: set<string>, changes: seq<Change>, c: nat, base: string) {
    && c < |changes|
    && (IsValidServerName(changes[c].serverName) <==> SomeSuffixFits(base, taken + NamesBefore(changes, c)))
  }

  lemma {:induction false} UniqueIsValid(taken: set<string>, changes: seq<Change>, c: nat, base: string)
    requires NormalName(base) && UniqueAt(taken, changes, c, base) && base in taken + NamesBefore(changes, c)
    ensures ValidExactly(taken, changes, c, base)
  {
    UniqueNameValid(base, taken + NamesBefore(changes, c));
  }

  lemma {:induction false} UniqueFirst(taken: set<string>, first: Change, rest: seq<Change>, base: string)
    requires first.originalName == Some(base) && UniqueName(base, taken) == Some(first.serverName)
    ensures UniqueAt(taken, [first] + rest, 0, base)
  {
    assert taken + NamesBefore([first] + rest, 0) == taken;
  }

  lemma {:induction false} UniqueLater(taken: set<string>, first: Change, rest: seq<Change>, c: nat, base: string)
    requires UniqueAt(taken + {first.serverName}, rest, c, base)
    ensures UniqueAt(taken, [first] + rest, c + 1, base)
  {
    NamesBeforeHead(first, rest, c);
    assert taken + ({first.serverName} + NamesBefore(rest, c)) == taken + {first.serverName} + NamesBefore(rest, c);
  }

  lemma {:induction false} UniqueAfter(taken: set<string>, adds: seq<Change>, rs: seq<Change>, c: nat, base: string)
    requires UniqueAt(taken + ChangeNames(adds), rs, c, base)
    ensures UniqueAt(taken, adds + rs, |adds| + c, base)
  {
    NamesBeforeConcat(adds, rs, c);
    assert taken + (ChangeNames(adds) + NamesBefore(rs, c)) == taken + ChangeNames(adds) + NamesBefore(rs, c);
  }

  lemma {:induction false} ValidAfter(taken: set<string>, adds: seq<Change>, rs: seq<Change>, c: nat, base: string)
    requires NormalName(base) && UniqueAt(taken + ChangeNames(adds), rs, c, base) && base in taken + ChangeNames(adds)
    ensures ValidExactly(taken, adds + rs, |adds| + c, base)
  {
    UniqueAfter(taken, adds, rs, c, base);
    NamesBeforeConcat(adds, rs, c);
    UniqueIsValid(taken, adds + rs, |adds| + c, base);
  }

  /** The first name and the others, resolved with the first in use. */
  lemma {:induction false} RenamesSplit(lower: Lower, conflicts: seq<Conflict>, names: set<string>, rs: seq<Change>)
    returns (unique: string, rest: seq<Change>)
    requires conflicts != [] && ResolveAll(lower, conflicts, Always(Rename), names) == Some(rs)
    ensures UniqueName(NormalizeServerName(lower, conflicts[0].incoming.name), names) == Some(unique)
    ensures rs == [RenameTo(lower, conflicts[0], unique)] + rest
    ensures ResolveAll(lower, conflicts[1..], Always(Rename), names + {unique}) == Some(rest)
  {
    RenameHead(lower, conflicts, names);
    unique := UniqueName(NormalizeServerName(lower, conflicts[0].incoming.name), names).value;
    rest := ResolveAll(lower, conflicts[1..], Always(Rename), names + {unique}).value;
  }

  /** What renaming makes of the conflicts: each in turn gets the unique name for its base. */
  ghost predicate Chain(bases: seq<string>, names: set<string>, rs: seq<Change>) {
    if bases == [] then rs == []
    else
      && rs != [] && rs[0].originalName == Some(bases[0])
      && UniqueName(bases[0], names) == Some(rs[0].serverName)
      && Chain(bases[1..], names + {rs[0].serverName}, rs[1..])
  }

  ghost predicate AllTaken(bases: seq<string>, names: set<string>) {
    forall i :: 0 <= i < |bases| ==> bases[i] in names
  }

  ghost predicate AllNormal(bases: seq<string>) {
    forall i :: 0 <= i < |bases| ==> NormalName(bases[i])
  }

  /** The normalised names of the conflicting servers. */
  ghost function Bases(lower: Lower, conflicts: seq<Conflict>): (r: seq<string>)
    ensures |r| == |conflicts| && AllNormal(r)
    ensures forall i :: 0 <= i < |r| ==> r[i] == NormalizeServerName(lower, conflicts[i].incoming.name)
  {
    if conflicts == [] then []
    else
      NormalizedIsNormal(lower, conflicts[0].incoming.name);
      [NormalizeServerName(lower, conflicts[0].incoming.name)] + Bases(lower, conflicts[1..])
  }

  lemma {:induction false} RenamesChain(lower: Lower, conflicts: seq<Conflict>, names: set<string>, rs: seq<Change>)
    requires ResolveAll(lower, conflicts, Always(Rename), names) == Some(rs)
    ensures Chain(Bases(lower, conflicts), names, rs)
  {
    if conflicts != [] {
      var unique, rest := RenamesSplit(lower, conflicts, names, rs);
      RenamesChain(lower, conflicts[1..], names + {unique}, rest);
      ChainStep(lower, conflicts, names, RenameTo(lower, conflicts[0], unique), rest);
    }
  }

  lemma {:induction false} ChainStep(
      lower: Lower, conflicts: seq<Conflict>, names: set<string>, r: Change, rest: seq<Change>)
    requires conflicts != [] && r.originalName == Some(NormalizeServerName(lower, conflicts[0].incoming.name))
    requires UniqueName(NormalizeServerName(lower, conflicts[0].incoming.name), names) == Some(r.serverName)
    requires Chain(Bases(lower, conflicts[1..]), names + {r.serverName}, rest)
    ensures Chain(Bases(lower, conflicts), names, [r] + rest)
  {
    assert ([r] + rest)[1..] == rest;
    assert Bases(lower, conflicts)[1..] == Bases(lower, conflicts[1..]);
  }

  lemma {:induction false} ChainUnique(bases: seq<string>, names: set<string>, rs: seq<Change>, i: nat)
    requires i < |bases| && Chain(bases, names, rs)
    ensures UniqueAt(names, rs, i, bases[i])
  {
    assert rs == [rs[0]] + rs[1..];
    if i == 0 {
      UniqueFirst(names, rs[0], rs[1..], bases[0]);
    } else {
      ChainUnique(bases[1..], names + {rs[0].serverName}, rs[1..], i - 1);
      UniqueLater(names, rs[0], rs[1..], i - 1, bases[i]);
    }
  }

  /** The names of new servers are valid keys. */
  lemma {:induction false} AddedNamesValid(lower: Lower, existing: Upstreams, incoming: seq<Incoming>, c: nat)
    requires Merge(lower, existing, incoming, Always(Rename)).Some?
    requires c < |Detect(lower, existing, incoming).noConflict|
    ensures var changes := Merge(lower, existing, incoming, Always(Rename)).value.changes;
            c < |changes| && IsValidServerName(changes[c].serverName)
  {
    MergeParts(lower, existing, incoming, Always(Rename));
    NormalizedIsNormal(lower, Detect(lower, existing, incoming).noConflict[c].originalName);
  }

  /** The two parts of the changes of a rename merge. */
  lemma {:induction false} RenameParts(lower: Lower, existing: Upstreams, incoming: seq<Incoming>, m: Merged)
    returns (adds: seq<Change>, rs: seq<Change>)
    requires Merge(lower, existing, incoming, Always(Rename)) == Some(m)
    ensures m.changes == adds + rs && |adds| == |Detect(lower, existing, incoming).noConflict|
    ensures var bases := Bases(lower, Detect(lower, existing, incoming).conflicts);
            var names := existing.Keys + ChangeNames(adds);
            Chain(bases, names, rs) && AllTaken(bases, names)
  {
    ConflictsNamed(lower, existing, incoming);
    MergeParts(lower, existing, incoming, Always(Rename));
    adds, rs := AddsOf(lower, existing, incoming), Resolutions(lower, existing, incoming, Always(Rename)).value;
    RenamesChain(lower, Detect(lower, existing, incoming).conflicts, NamesOf(lower, existing, incoming), rs);
  }

  /** The changes from some place on name their bases validly exactly when suffixes of these fit. */
  ghost predicate RenamesFit(taken: set<string>, changes: seq<Change>, from: nat, bases: seq<string>) {
    forall i: nat :: i < |bases| ==> ValidExactly(taken, changes, from + i, bases[i])
  }

  /**
   * The name for each conflict of a rename merge is a valid key exactly when, with the existing names and those of all
   * earlier changes in use, its normalised name has a free suffix that fits.
   */
  lemma {:induction false} RenamedNamesValid(lower: Lower, existing: Upstreams, incoming: seq<Incoming>, m: Merged)
    requires Merge(lower, existing, incoming, Always(Rename)) == Some(m)
    ensures var d := Detect(lower, existing, incoming);
            RenamesFit(existing.Keys, m.changes, |d.noConflict|, Bases(lower, d.conflicts))
  {
    var adds, rs := RenameParts(lower, existing, incoming, m);
    ChainFits(existing.Keys, adds, Bases(lower, Detect(lower, existing, incoming).conflicts), rs);
  }

  lemma {:induction false} ChainFits(existing: set<string>, adds: seq<Change>, bases: seq<string>, rs: seq<Change>)
    requires AllNormal(bases) && AllTaken(bases, existing + ChangeNames(adds))
    requires Chain(bases, existing + ChangeNames(adds), rs)
    ensures RenamesFit(existing, adds + rs, |adds|, bases)
  {
    forall i: nat | i < |bases| ensures ValidExactly(existing, adds + rs, |adds| + i, bases[i]) {
      ChainUnique(bases, existing + ChangeNames(adds), rs, i);
      ValidAfter(existing, adds, rs, i, bases[i]);
    }
  }

  // ------------------------------------------------------------------ when a rename merge throws

  ghost predicate NoneLeft(base: string, taken: set<string>) {
    base in taken && TakenBelow(base, taken, 1001)
  }

  lemma {:induction false} UniqueNameThrows(base: string, taken: set<string>)
    ensures UniqueName(base, taken) == None <==> NoneLeft(base, taken)
  {
    UniqueNameExact(base, taken);
  }

  /** All earlier conflicts find a name, and the i-th finds its base and all suffixed names in use. */
  ghost predicate Exhausted(lower: Lower, conflicts: seq<Conflict>, names: set<string>, i: nat) {
    i < |conflicts| &&
    match ResolveAll(lower, conflicts[..i], Always(Rename), names)
    case None => false
    case Some(rs) => NoneLeft(NormalizeServerName(lower, conflicts[i].incoming.name), names + ChangeNames(rs))
  }

  /** Some conflict does. */
  ghost predicate RunsOut(lower: Lower, conflicts: seq<Conflict>, names: set<string>) {
    exists i: nat :: Exhausted(lower, conflicts, names, i)
  }

  lemma {:induction false} ExhaustedFirst(lower: Lower, conflicts: seq<Conflict>, names: set<string>)
    requires conflicts != []
    ensures Exhausted(lower, conflicts, names, 0)
            <==> UniqueName(NormalizeServerName(lower, conflicts[0].incoming.name), names) == None
  {
    UniqueNameThrows(NormalizeServerName(lower, conflicts[0].incoming.name), names);
    assert conflicts[..0] == [] && names + ChangeNames([]) == names;
  }

  lemma {:induction false} ExhaustedLater(
      lower: Lower, conflicts: seq<Conflict>, names: set<string>, unique: string, i: nat)
    requires conflicts != []
    requires UniqueName(NormalizeServerName(lower, conflicts[0].incoming.name), names) == Some(unique)
    ensures Exhausted(lower, conflicts, names, i + 1) <==> Exhausted(lower, conflicts[1..], names + {unique}, i)
  {
    if i + 1 < |conflicts| {
      var init, rest := conflicts[..i + 1], conflicts[1..];
      assert init[0] == conflicts[0] && init[1..] == rest[..i];
      RenameHead(lower, init, names);
      match ResolveAll(lower, rest[..i], Always(Rename), names + {unique})
      case None =>
      case Some(rs) =>
        ChangeNamesHead(RenameTo(lower, conflicts[0], unique), rs);
        assert names + ({unique} + ChangeNames(rs)) == names + {unique} + ChangeNames(rs);
    }
  }

  lemma {:induction false} RunsOutLater(lower: Lower, conflicts: seq<Conflict>, names: set<string>, unique: string)
    requires conflicts != []
    requires UniqueName(NormalizeServerName(lower, conflicts[0].incoming.name), names) == Some(unique)
    ensures RunsOut(lower, conflicts, names) <==> RunsOut(lower, conflicts[1..], names + {unique})
  {
    ExhaustedFirst(lower, conflicts, names);
    if RunsOut(lower, conflicts, names) {
      var i: nat :| Exhausted(lower, conflicts, names, i);
      ExhaustedLater(lower, conflicts, names, unique, i - 1);
    }
    if RunsOut(lower, conflicts[1..], names + {unique}) {
      var i: nat :| Exhausted(lower, conflicts[1..], names + {unique}, i);
      ExhaustedLater(lower, conflicts, names, unique, i);
    }
  }

  lemma {:induction false} RenamesFailExactly(lower: Lower, conflicts: seq<Conflict>, names: set<string>)
    ensures ResolveAll(lower, conflicts, Always(Rename), names) == None <==> RunsOut(lower, conflicts, names)
  {
    if conflicts != [] {
      RenameHead(lower, conflicts, names);
      match UniqueName(NormalizeServerName(lower, conflicts[0].incoming.name), names)
      case None => ExhaustedFirst(lower, conflicts, names);
      case Some(unique) =>
        RunsOutLater(lower, conflicts, names, unique);
        RenamesFailExactly(lower, conflicts[1..], names + {unique});
    }
  }

  /** A rename merge throws exactly when some conflict, as it is resolved, finds its name and all suffixes in use. */
  lemma {:induction false} RenameThrowsExactly(lower: Lower, existing: Upstreams, incoming: seq<Incoming>)
    ensures Merge(lower, existing, incoming, Always(Rename)).None? <==>
            RunsOut(lower, Detect(lower, existing, incoming).conflicts, NamesOf(lower, existing, incoming))
  {
    MergeParts(lower, existing, incoming, Always(Rename));
    RenamesFailExactly(lower, Detect(lower, existing, incoming).conflicts, NamesOf(lower, existing, incoming));
  }

  // ------------------------------------------------------------------ a merge that stores a name that is no valid key

  /** A server that runs a command under some name. */
  function Running(name: string, command: string): External {
    External(name, Some(command), None, None, None, None, None, None, None, None)
  }

  function LongName(): string {
    seq(MAX_LENGTH, _ => 'a')
  }

  /** A single server that conflicts with an existing one is stored under the unique name for its own. */
  lemma {:induction false} OneConflict(lower: Lower, existing: Upstreams, x: Incoming, unique: string)
    requires Judge(lower, existing, map[], x) == WithExisting
    requires UniqueName(NameOf(lower, x), existing.Keys) == Some(unique)
    ensures var m := Merge(lower, existing, [x], Always(Rename)); m.Some? && unique in m.value.upstreams
  {
    assert [x][..0] == [];
    assert Detect(lower, existing, [x]) == DetectOne(lower, existing, NOTHING, x);
    var conflicts := Detect(lower, existing, [x]).conflicts;
    assert AddsOf(lower, existing, [x]) == [] && NamesOf(lower, existing, [x]) == existing.Keys;
    RenameHead(lower, conflicts, existing.Keys);
    assert conflicts[1..] == [];
    MergeParts(lower, existing, [x], Always(Rename));
    RenameOutcome(lower, existing, [x]);
    var changes := Merge(lower, existing, [x], Always(Rename)).value.changes;
    assert changes == [RenameTo(lower, conflicts[0], unique)];
    assert Stored(Merge(lower, existing, [x], Always(Rename)).value.upstreams, changes[0]);
  }

  /** One upstream with a name of full length, and an incoming server of that name with another command. */
  lemma {:induction false} LongNameOverflows(lower: Lower)
    requires lower(LongName()) == LongName()
    ensures var existing := map[LongName() := MapServer(Running("x", "old")).value];
            var m := Merge(lower, existing, [Incoming(Running(LongName(), "new"), "")], Always(Rename));
            && m.Some? && Suffixed(LongName(), 2) in m.value.upstreams
            && |Suffixed(LongName(), 2)| == 66 && !IsValidServerName(Suffixed(LongName(), 2))
  {
    var base, existing := LongName(), map[LongName() := MapServer(Running("x", "old")).value];
    NormalNameFixed(lower, base);
    assert |Suffixed(base, 2)| > |base|;
    FullNameOverflows(base, {base});
    assert existing.Keys == {base};
    OneConflict(lower, existing, Incoming(Running(base, "new"), ""), Suffixed(base, 2));
  }
}
