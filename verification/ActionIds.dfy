/** Allocation of action identifiers by probing (src/capabilities/routing.ts:66-120). */
module ActionIds {
  import opened Common
  import opened Tokens

  function Numbered(base: string, n: nat): string {
    Joined(base, Decimal(n))
  }

  lemma NumberedInjective(base: string, a: nat, b: nat)
    requires Numbered(base, a) == Numbered(base, b)
    ensures a == b
  {
    JoinedCancel(base, Decimal(a), Decimal(b));
    DecimalInjective(a, b);
  }

  /** What is tried first. */
  function FirstChoice(actionBase: string, index: nat): string {
    if index == 0 then actionBase else Numbered(actionBase, index + 1)
  }

  /** The stem and the first number of the further attempts. */
  function Retries(actionBase: string, index: nat): (string, nat) {
    match SuffixMatch(actionBase)
    case Some((stem, n)) => (stem, n + 1)
    case None => (actionBase, index + 2)
  }

  /** The first free name among stem__n, stem__(n+1), ... */
  function Probe(taken: set<string>, stem: string, n: nat): string
    decreases |taken|
  {
    if Numbered(stem, n) in taken then Probe(taken - {Numbered(stem, n)}, stem, n + 1) else Numbered(stem, n)
  }

  function Allocate(taken: set<string>, actionBase: string, index: nat): string {
    if FirstChoice(actionBase, index) !in taken then FirstChoice(actionBase, index)
    else Probe(taken, Retries(actionBase, index).0, Retries(actionBase, index).1)
  }

  /** Names with smaller numbers do not influence a probe. */
  lemma {:induction false} ProbeIgnoresSmaller(taken: set<string>, stem: string, m: nat, n: nat)
    requires m < n
    ensures Probe(taken - {Numbered(stem, m)}, stem, n) == Probe(taken, stem, n)
    decreases |taken|
  {
    var small, next := Numbered(stem, m), Numbered(stem, n);
    if small == next {
      NumberedInjective(stem, m, n);
    }
    if next in taken {
      assert taken - {small} - {next} == taken - {next} - {small};
      ProbeIgnoresSmaller(taken - {next}, stem, m, n + 1);
    }
  }

  lemma ProbeNext(taken: set<string>, stem: string, n: nat)
    requires Numbered(stem, n) in taken
    ensures Probe(taken, stem, n) == Probe(taken, stem, n + 1)
  {
    ProbeIgnoresSmaller(taken, stem, n, n + 1);
  }

  /** A probe ends on the least free number. */
  lemma {:induction false} ProbeIsFree(taken: set<string>, stem: string, n: nat) returns (m: nat)
    ensures m >= n && Probe(taken, stem, n) == Numbered(stem, m)
    ensures Numbered(stem, m) !in taken
    ensures forall k :: n <= k < m ==> Numbered(stem, k) in taken
    decreases |taken|
  {
    var next := Numbered(stem, n);
    if next in taken {
      m := ProbeIsFree(taken - {next}, stem, n + 1);
      if Numbered(stem, m) == next {
        NumberedInjective(stem, m, n);
      }
    } else {
      m := n;
    }
  }

  /** An allocated identifier was not taken. */
  lemma AllocateIsFree(taken: set<string>, actionBase: string, index: nat)
    ensures Allocate(taken, actionBase, index) !in taken
  {
    var m := ProbeIsFree(taken, Retries(actionBase, index).0, Retries(actionBase, index).1);
  }

  lemma DigitsHaveNoSeparator(digits: string, a: string, b: string)
    requires AllDigits(digits)
    ensures digits != Joined(a, b)
  {
    JoinedParts(a, b);
    if |digits| > |a| {
      assert IsDigit(digits[|a|]);
    }
  }

  /** The further attempts never come back to the first choice. */
  lemma RetriesAreNew(actionBase: string, index: nat, k: nat)
    requires k >= Retries(actionBase, index).1
    ensures Numbered(Retries(actionBase, index).0, k) != FirstChoice(actionBase, index)
  {
    var (stem, start) := Retries(actionBase, index);
    DecimalRoundTrip(k);
    SuffixOfNumbered(stem, Decimal(k));
    if index > 0 {
      DecimalRoundTrip(index + 1);
      SuffixOfNumbered(actionBase, Decimal(index + 1));
    }
    match SuffixMatch(actionBase)
    case None =>
    case Some((p, n)) =>
      SuffixMatchParts(actionBase);
      var digits :| AllDigits(digits) && actionBase == Joined(p, digits) && n == ParseDecimal(digits);
      JoinedNests(p, digits, Decimal(index + 1));
      DigitsHaveNoSeparator(Decimal(k), digits, Decimal(index + 1));
      if index > 0 && Numbered(p, k) == Joined(p, Joined(digits, Decimal(index + 1))) {
        JoinedCancel(p, Decimal(k), Joined(digits, Decimal(index + 1)));
      }
  }

  /** The i-th name that is tried. */
  function Attempt(actionBase: string, index: nat, i: nat): string {
    if i == 0 then FirstChoice(actionBase, index)
    else Numbered(Retries(actionBase, index).0, Retries(actionBase, index).1 + (i - 1))
  }

  function Attempts(actionBase: string, index: nat, n: nat): set<string> {
    if n == 0 then {} else Attempts(actionBase, index, n - 1) + {Attempt(actionBase, index, n - 1)}
  }

  /** No name is tried twice. */
  lemma AttemptsDiffer(actionBase: string, index: nat, i: nat, j: nat)
    requires i < j
    ensures Attempt(actionBase, index, i) != Attempt(actionBase, index, j)
  {
    var (stem, start) := Retries(actionBase, index);
    if i == 0 {
      RetriesAreNew(actionBase, index, start + (j - 1));
    } else if Numbered(stem, start + (i - 1)) == Numbered(stem, start + (j - 1)) {
      NumberedInjective(stem, start + (i - 1), start + (j - 1));
    }
  }

  lemma {:induction false} AttemptsCount(actionBase: string, index: nat, n: nat, j: nat)
    requires n <= j
    ensures |Attempts(actionBase, index, n)| == n
    ensures Attempt(actionBase, index, j) !in Attempts(actionBase, index, n)
  {
    if n > 0 {
      AttemptsCount(actionBase, index, n - 1, n - 1);
      AttemptsCount(actionBase, index, n - 1, j);
      AttemptsDiffer(actionBase, index, n - 1, j);
    }
  }

  lemma {:induction false} ProbeSkips(taken: set<string>, actionBase: string, index: nat, n: nat)
    requires Attempts(actionBase, index, n + 1) <= taken
    ensures var (stem, start) := Retries(actionBase, index); Probe(taken, stem, start) == Probe(taken, stem, start + n)
  {
    if n > 0 {
      ProbeSkips(taken, actionBase, index, n - 1);
      assert Attempt(actionBase, index, n) in Attempts(actionBase, index, n + 1);
      ProbeNext(taken, Retries(actionBase, index).0, Retries(actionBase, index).1 + (n - 1));
    }
  }

  /** What is allocated is the first attempt that is free. */
  lemma AllocateIsFirstFree(taken: set<string>, actionBase: string, index: nat, n: nat)
    requires Attempts(actionBase, index, n) <= taken && Attempt(actionBase, index, n) !in taken
    ensures Allocate(taken, actionBase, index) == Attempt(actionBase, index, n)
  {
    if n > 0 {
      ProbeSkips(taken, actionBase, index, n - 1);
      AllAttempted(actionBase, index, n);
    }
  }

  lemma {:induction false} AllAttempted(actionBase: string, index: nat, n: nat)
    requires n > 0
    ensures FirstChoice(actionBase, index) in Attempts(actionBase, index, n)
  {
    if n > 1 {
      AllAttempted(actionBase, index, n - 1);
    }
  }

  /** The first n names that are tried are all taken. */
  ghost predicate Tried(emitted: set<string>, actionBase: string, index: nat, n: nat) {
    Attempts(actionBase, index, n) <= emitted
  }

  /** Where the loop stands: so many names were tried, all but the last are taken, and stem__n comes next. */
  ghost predicate Probing(
      emitted: set<string>, actionBase: string, index: nat, probes: nat, candidate: string, stem: string, n: nat)
  {
    && 1 <= probes <= |emitted| + 1
    && Tried(emitted, actionBase, index, probes - 1) && candidate == Attempt(actionBase, index, probes - 1)
    && stem == Retries(actionBase, index).0 && n == Retries(actionBase, index).1 + (probes - 1)
  }

  lemma ProbingStarts(emitted: set<string>, actionBase: string, index: nat)
    ensures Probing(emitted, actionBase, index, 1, FirstChoice(actionBase, index), Retries(actionBase, index).0,
                    Retries(actionBase, index).1)
  {
  }

  lemma ProbingGoesOn(
      emitted: set<string>, actionBase: string, index: nat, probes: nat, candidate: string, stem: string, n: nat)
    requires Probing(emitted, actionBase, index, probes, candidate, stem, n) && candidate in emitted
    ensures probes <= |emitted|
    ensures Probing(emitted, actionBase, index, probes + 1, Numbered(stem, n), stem, n + 1)
  {
    AttemptsCount(actionBase, index, probes, probes);
    SubsetSize(Attempts(actionBase, index, probes), emitted);
  }

  lemma ProbingEnds(
      emitted: set<string>, actionBase: string, index: nat, probes: nat, candidate: string, stem: string, n: nat)
    requires Probing(emitted, actionBase, index, probes, candidate, stem, n) && candidate !in emitted
    ensures candidate == Allocate(emitted, actionBase, index)
  {
    AllocateIsFirstFree(emitted, actionBase, index, probes - 1);
  }

  /** The probing loop: at most one probe more than there are identifiers already. */
  method AllocateUniqueActionId(emitted: set<string>, actionBase: string, index: nat)
    returns (id: string, emitted': set<string>, ghost probes: nat)
    ensures id == Allocate(emitted, actionBase, index) && id !in emitted
    ensures emitted' == emitted + {id}
    ensures 1 <= probes <= |emitted| + 1
  {
    var candidate := if index == 0 then actionBase else Numbered(actionBase, index + 1);
    var suffixMatch := SuffixMatch(actionBase);
    var dedupeBase := if suffixMatch.Some? then suffixMatch.value.0 else actionBase;
    var dedupe: nat := if suffixMatch.Some? then suffixMatch.value.1 + 1 else index + 2;
    probes := 1;
    ProbingStarts(emitted, actionBase, index);
    while candidate in emitted
      invariant Probing(emitted, actionBase, index, probes, candidate, dedupeBase, dedupe)
      decreases |emitted| - probes
    {
      ProbingGoesOn(emitted, actionBase, index, probes, candidate, dedupeBase, dedupe);
      candidate := Numbered(dedupeBase, dedupe);
      dedupe := dedupe + 1;
      probes := probes + 1;
    }
    ProbingEnds(emitted, actionBase, index, probes, candidate, dedupeBase, dedupe);
    id, emitted' := candidate, emitted + {candidate};
  }

  // ------------------------------------------------------------------ the form of what is allocated

  /** id is name, or name__rest. */
  ghost predicate Extends(id: string, name: string) {
    id == name || exists rest :: id == Joined(name, rest)
  }

  lemma JoinedExtends(id: string, name: string, rest: string)
    requires id == Joined(name, rest)
    ensures Extends(id, name)
  {
  }
}
