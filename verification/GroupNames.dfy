/** The exact names that one collision group hands out, and when an alias meets an identifier. */
module GroupNames {
  import opened Common
  import opened Sorting
  import opened Grouping
  import opened Tokens
  import opened ActionIds
  import opened Routing
  import opened RoutingIds

  function TokenOf(loc: Locale, k: string): string {
    ToActionToken(loc.lower, k)
  }

  /** An identifier belongs to one instance token only. */
  lemma BelongsToOne(b: string, x: string, y: string, id: string)
    requires IsToken(x) && IsToken(y)
    requires Extends(id, Joined(b, x)) && Extends(id, Joined(b, y))
    ensures x == y
  {
    var s := RestOf(b, x, id);
    var t := RestOf(b, y, id);
    JoinedCancel(b, s, t);
    if x != y {
      BasesApart(x, s, y, t);
    }
  }

  lemma RestOf(b: string, x: string, id: string) returns (rest: string)
    requires Extends(id, Joined(b, x))
    ensures id == Joined(b, rest) && Extends(rest, x)
  {
    if id == Joined(b, x) {
      rest := x;
    } else {
      var r :| id == Joined(Joined(b, x), r);
      JoinedNests(b, x, r);
      rest := Joined(x, r);
    }
  }

  // ------------------------------------------------------------------ instances with a token of their own

  lemma FirstChoiceExtends(base: string, j: nat)
    ensures Extends(FirstChoice(base, j), base)
    ensures FirstChoice(base, j) == base <==> j == 0
  {
    if j > 0 {
      JoinedExtends(FirstChoice(base, j), base, Decimal(j + 1));
      JoinedParts(base, Decimal(j + 1));
    }
  }

  lemma FirstChoicesDiffer(base: string, i: nat, j: nat)
    requires i != j
    ensures FirstChoice(base, i) != FirstChoice(base, j)
  {
    FirstChoiceExtends(base, i);
    FirstChoiceExtends(base, j);
    if i > 0 && j > 0 && FirstChoice(base, i) == FirstChoice(base, j) {
      NumberedInjective(base, i + 1, j + 1);
    }
  }

  /** Without interference every record gets its first choice. */
  lemma {:induction false} UndisturbedIds(taken: set<string>, base: string, count: nat, index: nat, j: nat)
    requires forall k :: k >= index ==> FirstChoice(base, k) !in taken
    requires j < |EmitIds(taken, base, count, index)|
    ensures EmitIds(taken, base, count, index)[j] == FirstChoice(base, index + j)
    decreases if index < count then count - index else 0
  {
    var id := Allocate(taken, base, index);
    assert id == FirstChoice(base, index);
    if j > 0 {
      forall k | k >= index + 1 ensures FirstChoice(base, k) !in taken + {id} {
        FirstChoicesDiffer(base, index, k);
      }
      UndisturbedIds(taken + {id}, base, count, index + 1, j - 1);
    }
  }

  // ------------------------------------------------------------------ instances that share a token

  /** With a numbered base every identifier extends the stem properly. */
  lemma NumberedAllocates(taken: set<string>, stem: string, n: nat, index: nat)
    ensures var id := Allocate(taken, Numbered(stem, n), index);
            Extends(id, stem) && id != stem
  {
    DecimalRoundTrip(n);
    SuffixOfNumbered(stem, Decimal(n));
    var actionBase := Numbered(stem, n);
    var m := ProbeIsFree(taken, stem, n + 1);
    if FirstChoice(actionBase, index) in taken {
      JoinedExtends(Numbered(stem, m), stem, Decimal(m));
      JoinedParts(stem, Decimal(m));
    } else if index == 0 {
      JoinedExtends(actionBase, stem, Decimal(n));
      JoinedParts(stem, Decimal(n));
    } else {
      JoinedNests(stem, Decimal(n), Decimal(index + 1));
      JoinedExtends(FirstChoice(actionBase, index), stem, Joined(Decimal(n), Decimal(index + 1)));
      JoinedParts(stem, Joined(Decimal(n), Decimal(index + 1)));
    }
  }

  lemma {:induction false} NumberedIds(taken: set<string>, stem: string, n: nat, count: nat, index: nat, j: nat)
    requires j < |EmitIds(taken, Numbered(stem, n), count, index)|
    ensures var id := EmitIds(taken, Numbered(stem, n), count, index)[j]; Extends(id, stem) && id != stem
    decreases if index < count then count - index else 0
  {
    NumberedAllocates(taken, stem, n, index);
    if j > 0 {
      NumberedIds(taken + {Allocate(taken, Numbered(stem, n), index)}, stem, n, count, index + 1, j - 1);
    }
  }

  // ------------------------------------------------------------------ all instances of a group

  /** Every taken identifier belongs to the token of one of the given instance keys. */
  ghost predicate TakenBy(loc: Locale, b: string, taken: set<string>, ks: seq<string>) {
    forall id :: id in taken ==> exists k :: k in ks && Extends(id, Joined(b, TokenOf(loc, k)))
  }

  lemma {:induction false} NoneCounted(loc: Locale, ks: seq<string>, token: string, k: string)
    requires CountToken(loc, ks, token) == 0 && k in ks
    ensures TokenOf(loc, k) != token
  {
    if k != ks[|ks| - 1] {
      NoneCounted(loc, ks[..|ks| - 1], token, k);
    }
  }

  lemma FirstRankIsFree(loc: Locale, b: string, ks: seq<string>, i: nat, taken: set<string>, j: nat)
    requires i < |ks| && Rank(loc, ks, i) == 0 && TakenBy(loc, b, taken, ks[..i])
    ensures FirstChoice(Joined(b, TokenOf(loc, ks[i])), j) !in taken
  {
    var x := TokenOf(loc, ks[i]);
    var id := FirstChoice(Joined(b, x), j);
    if id in taken {
      var k :| k in ks[..i] && Extends(id, Joined(b, TokenOf(loc, k)));
      FirstChoiceExtends(Joined(b, x), j);
      TokenShape(loc.lower, k);
      TokenShape(loc.lower, ks[i]);
      BelongsToOne(b, x, TokenOf(loc, k), id);
      NoneCounted(loc, ks[..i], x, k);
    }
  }

  /**
   * The identifiers of the i-th instance belong to its token; the bare one goes to the first record of a first holder.
   */
  lemma InstanceIds(loc: Locale, b: string, ks: seq<string>, i: nat, taken: set<string>, count: nat, j: nat)
    requires i < |ks| && TakenBy(loc, b, taken, ks[..i]) && j < count
    ensures var id := EmitIds(taken, Joined(b, InstanceToken(loc, ks, i)), count, 0)[j];
            && Extends(id, Joined(b, TokenOf(loc, ks[i])))
            && (id == Joined(b, TokenOf(loc, ks[i])) <==> Rank(loc, ks, i) == 0 && j == 0)
  {
    var x := TokenOf(loc, ks[i]);
    if Rank(loc, ks, i) == 0 {
      forall k: nat ensures FirstChoice(Joined(b, x), k) !in taken {
        FirstRankIsFree(loc, b, ks, i, taken, k);
      }
      UndisturbedIds(taken, Joined(b, x), count, 0, j);
      FirstChoiceExtends(Joined(b, x), j);
    } else {
      var n := Rank(loc, ks, i) + 1;
      JoinedNests(b, x, Decimal(n));
      NumberedIds(taken, Joined(b, x), n, count, 0, j);
    }
  }

  lemma NextTaken(loc: Locale, b: string, ks: seq<string>, i: nat, taken: set<string>, count: nat)
    requires i < |ks| && TakenBy(loc, b, taken, ks[..i])
    ensures var ids := EmitIds(taken, Joined(b, InstanceToken(loc, ks, i)), count, 0);
            TakenBy(loc, b, taken + Elements(ids), ks[..i + 1])
  {
    var ids := EmitIds(taken, Joined(b, InstanceToken(loc, ks, i)), count, 0);
    assert ks[..i + 1] == ks[..i] + [ks[i]];
    forall id | id in taken + Elements(ids)
      ensures exists k :: k in ks[..i + 1] && Extends(id, Joined(b, TokenOf(loc, k)))
    {
      if id in taken {
        var k :| k in ks[..i] && Extends(id, Joined(b, TokenOf(loc, k)));
        assert k in ks[..i + 1];
      } else {
        var j :| 0 <= j < |ids| && ids[j] == id;
        InstanceIds(loc, b, ks, i, taken, count, j);
        assert ks[i] in ks[..i + 1];
      }
    }
  }

  /** The route is the first record of the i-th instance, which is the first holder of its token. */
  ghost predicate IsBare(loc: Locale, records: seq<Route>, ks: seq<string>, i: nat, r: Route) {
    && i < |ks| && Rank(loc, ks, i) == 0
    && Select(InstanceOf, records, ks[i]) != [] && Select(InstanceOf, records, ks[i])[0] == Single(r)
  }

  /** What every emitted action looks like, and which one is the bare form of a token. */
  lemma {:induction false} EmitNames(
      loc: Locale, records: seq<Route>, ks: seq<string>, i: nat, taken: set<string>, r: Route)
    requires i <= |ks| && records != [] && AllCandidates(records)
    requires TakenBy(loc, records[0].baseAction, taken, ks[..i]) && r in Emit(loc, records, ks, i, taken)
    ensures var b := records[0].baseAction;
            && Extends(r.action, Joined(b, TokenOf(loc, r.instanceKey)))
            && (r.action == Joined(b, TokenOf(loc, r.instanceKey)) ==>
                  exists k :: i <= k < |ks| && ks[k] == r.instanceKey && IsBare(loc, records, ks, k, r))
    decreases |ks| - i
  {
    var b := records[0].baseAction;
    var mine := Select(InstanceOf, records, ks[i]);
    var ids := EmitIds(taken, Joined(b, InstanceToken(loc, ks, i)), |mine|, 0);
    var here := Stamp(records, mine, ids);
    if r in here {
      var j :| 0 <= j < |here| && here[j] == r;
      InstanceIds(loc, b, ks, i, taken, |mine|, j);
      SelectMembers(InstanceOf, records, ks[i], mine[j]);
      assert IsCandidate(mine[j]) && Single(r) == mine[j];
    } else {
      NextTaken(loc, b, ks, i, taken, |mine|);
      EmitNames(loc, records, ks, i + 1, taken + Elements(ids), r);
    }
  }

  /** The bare form of a token is handed out, to the first record of its first holder. */
  lemma {:induction false} EmitBare(
      loc: Locale, records: seq<Route>, ks: seq<string>, i: nat, taken: set<string>, k: nat)
    returns (r: Route)
    requires i <= k < |ks| && records != [] && AllCandidates(records)
    requires TakenBy(loc, records[0].baseAction, taken, ks[..i])
    requires Rank(loc, ks, k) == 0 && Select(InstanceOf, records, ks[k]) != []
    ensures r in Emit(loc, records, ks, i, taken)
    ensures r.action == Joined(records[0].baseAction, TokenOf(loc, ks[k]))
    ensures Single(r) == Select(InstanceOf, records, ks[k])[0]
    decreases k - i
  {
    var b := records[0].baseAction;
    var mine := Select(InstanceOf, records, ks[i]);
    var ids := EmitIds(taken, Joined(b, InstanceToken(loc, ks, i)), |mine|, 0);
    var here := Stamp(records, mine, ids);
    if i == k {
      InstanceIds(loc, b, ks, i, taken, |mine|, 0);
      SelectMembers(InstanceOf, records, ks[i], mine[0]);
      assert IsCandidate(mine[0]);
      r := here[0];
      assert r in here;
    } else {
      NextTaken(loc, b, ks, i, taken, |mine|);
      r := EmitBare(loc, records, ks, i + 1, taken + Elements(ids), k);
    }
  }

  // ------------------------------------------------------------------ aliases

  lemma {:induction false} LastIndexOfDistinct(records: seq<Route>, i: nat)
    requires DistinctKeys(QualifiedOf, records) && i < |records|
    ensures LastIndex(records, records[i].qualifiedName) == i
  {
    if i != |records| - 1 {
      assert QualifiedOf(records[i]) != QualifiedOf(records[|records| - 1]);
      LastIndexOfDistinct(records[..|records| - 1], i);
    }
  }

  /** The alias of the i-th record is the base action and its position, counted from one. */
  lemma AliasOf(records: seq<Route>, i: nat)
    requires DistinctKeys(QualifiedOf, records) && i < |records|
    ensures Legacy(records, records[i].qualifiedName) == if i == 0 then [] else [Numbered(records[i].baseAction, i + 1)]
  {
    LastIndexOfDistinct(records, i);
  }

  /** An identifier looks like an alias exactly when it is the bare form of a token that spells the number. */
  lemma AliasMeetsId(b: string, x: string, id: string, n: nat)
    requires IsToken(x) && Extends(id, Joined(b, x))
    ensures id == Numbered(b, n) <==> id == Joined(b, x) && x == Decimal(n)
  {
    var rest := RestOf(b, x, id);
    DecimalRoundTrip(n);
    if id == Numbered(b, n) {
      JoinedCancel(b, rest, Decimal(n));
      if rest != x {
        var s :| rest == Joined(x, s);
        DigitsHaveNoSeparator(Decimal(n), x, s);
      }
    }
  }

  /**
   * A clash: the token of some instance spells the number of a record, and the first record of the first instance
   * with that token is a different one.
   */
  ghost predicate ClashAt(loc: Locale, records: seq<Route>, ks: seq<string>, k: nat, i: nat) {
    && k < |ks| && 1 <= i < |records|
    && TokenOf(loc, ks[k]) == Decimal(i + 1) && Rank(loc, ks, k) == 0
    && Select(InstanceOf, records, ks[k]) != [] && Select(InstanceOf, records, ks[k])[0] != records[i]
  }

  ghost predicate Clash(loc: Locale, records: seq<Route>) {
    exists k: nat, i: nat :: ClashAt(loc, records, SortedKeys(loc.lt, InstanceOf, records), k, i)
  }

  /** No token of an instance in the group consists of digits only. */
  lemma NoDigitsNoClash(loc: Locale, records: seq<Route>)
    requires StrictTotal(loc.lt)
    requires forall r :: r in records ==> !AllDigits(TokenOf(loc, r.instanceKey))
    ensures !Clash(loc, records)
  {
    var ks := SortedKeys(loc.lt, InstanceOf, records);
    forall k: nat, i: nat ensures !ClashAt(loc, records, ks, k, i) {
      DecimalShape(i + 1);
      if k < |ks| && Select(InstanceOf, records, ks[k]) != [] {
        var first := Select(InstanceOf, records, ks[k])[0];
        SelectMembers(InstanceOf, records, ks[k], first);
        assert first in records && first.instanceKey == ks[k];
      }
    }
  }

  /** Within a group without a clash, an alias that is also an identifier belongs to one and the same route. */
  lemma AliasIsOwn(loc: Locale, records: seq<Route>, r: Route, i: nat)
    requires |records| > 1 && AllCandidates(records) && OneGroup(records, records[0].baseAction)
    requires !Clash(loc, records) && r in ResolveGroup(loc, records)
    requires 1 <= i < |records| && r.action == Numbered(records[0].baseAction, i + 1)
    ensures Single(r) == records[i]
  {
    var b := records[0].baseAction;
    var ks := SortedKeys(loc.lt, InstanceOf, records);
    EmitNames(loc, records, ks, 0, {}, r);
    TokenShape(loc.lower, r.instanceKey);
    AliasMeetsId(b, TokenOf(loc, r.instanceKey), r.action, i + 1);
    var k :| 0 <= k < |ks| && ks[k] == r.instanceKey && IsBare(loc, records, ks, k, r);
    assert !ClashAt(loc, records, ks, k, i);
  }

  /** A clash gives the alias of one record to a route made from another. */
  lemma ClashSteals(loc: Locale, records: seq<Route>) returns (r: Route, i: nat)
    requires |records| > 1 && AllCandidates(records) && OneGroup(records, records[0].baseAction) && Clash(loc, records)
    ensures r in ResolveGroup(loc, records) && 1 <= i < |records|
    ensures r.action == Numbered(records[0].baseAction, i + 1) && Single(r) != records[i]
  {
    var ks := SortedKeys(loc.lt, InstanceOf, records);
    var k, n :| ClashAt(loc, records, ks, k, n);
    i := n;
    r := EmitBare(loc, records, ks, 0, {}, k);
  }
}
