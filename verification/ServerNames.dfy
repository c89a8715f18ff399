/** Server names (src/import/transform/normalizer.ts): normal form and unique suffixes. */
module ServerNames {
  import opened Common
  import opened Whitespace
  import opened Tokens

  const MAX_LENGTH := 64

  const LAST_SUFFIX := 1000

  predicate Letter(c: char) { 'a' <= c <= 'z' }

  predicate KeyChar(c: char) { Letter(c) || IsDigit(c) || c == '_' || c == '-' }

  // ------------------------------------------------------------------ normalisation

  /** replace(/[\s.]+/g, "-"); inRun says that the previous character was replaced. */
  function ReplaceBlanks(s: string, inRun: bool): string {
    if s == "" then ""
    else if IsSpace(s[0]) || s[0] == '.' then (if inRun then "" else "-") + ReplaceBlanks(s[1..], true)
    else [s[0]] + ReplaceBlanks(s[1..], false)
  }

  /** replace(/[^a-z0-9_-]/g, "") */
  function KeepKeyChars(s: string): string {
    if s == "" then "" else (if KeyChar(s[0]) then [s[0]] else "") + KeepKeyChars(s[1..])
  }

  /** replace(/-+/g, "-") */
  function CollapseHyphens(s: string): string {
    if |s| < 2 then s
    else if s[0] == '-' && s[1] == '-' then CollapseHyphens(s[1..])
    else [s[0]] + CollapseHyphens(s[1..])
  }

  function TrimHyphensFront(s: string): string {
    if s != "" && s[0] == '-' then TrimHyphensFront(s[1..]) else s
  }

  function TrimHyphensBack(s: string): string {
    if s != "" && s[|s| - 1] == '-' then TrimHyphensBack(s[..|s| - 1]) else s
  }

  /** A key must not begin with a digit or a hyphen, nor be empty. */
  function WithKeyStart(s: string): string {
    if |s| == 0 then "server" else if IsDigit(s[0]) || s[0] == '-' then "s-" + s else s
  }

  function Truncate(s: string): string {
    if |s| > MAX_LENGTH then TrimHyphensBack(s[..MAX_LENGTH]) else s
  }

  /** normalizeServerName, with lower-casing as a parameter. */
  function NormalizeServerName(lower: string -> string, name: string): string {
    var kept := KeepKeyChars(ReplaceBlanks(lower(name), false));
    Truncate(WithKeyStart(TrimHyphensBack(TrimHyphensFront(CollapseHyphens(kept)))))
  }

  ghost predicate KeyChars(s: string) {
    forall i :: 0 <= i < |s| ==> KeyChar(s[i])
  }

  ghost predicate NoDoubleHyphen(s: string) {
    forall i :: 0 <= i < |s| - 1 ==> !(s[i] == '-' && s[i + 1] == '-')
  }

  /** isValidServerName: a bare TOML key of at most 64 characters. */
  ghost predicate IsValidServerName(s: string) {
    && 0 < |s| <= 64
    && (Letter(s[0]) || 'A' <= s[0] <= 'Z' || s[0] == '_')
    && forall i :: 0 <= i < |s| ==> KeyChar(s[i]) || 'A' <= s[i] <= 'Z'
  }

  /** The normal form: valid, lower case, no two hyphens in a row, no hyphen at the end. */
  ghost predicate NormalName(s: string) {
    IsValidServerName(s) && KeyChars(s) && NoDoubleHyphen(s) && s[|s| - 1] != '-'
  }

  lemma {:induction false} KeepKeyCharsShape(s: string)
    ensures KeyChars(KeepKeyChars(s))
  {
    if s != "" {
      KeepKeyCharsShape(s[1..]);
    }
  }

  lemma {:induction false} CollapseShape(s: string)
    requires KeyChars(s)
    ensures var r := CollapseHyphens(s); KeyChars(r) && NoDoubleHyphen(r) && (s != "" ==> r != "" && r[0] == s[0])
  {
    if |s| >= 2 {
      CollapseShape(s[1..]);
    }
  }

  lemma {:induction false} TrimFrontShape(s: string)
    requires KeyChars(s) && NoDoubleHyphen(s)
    ensures var r := TrimHyphensFront(s); KeyChars(r) && NoDoubleHyphen(r) && (r != "" ==> r[0] != '-')
  {
    if s != "" && s[0] == '-' {
      TrimFrontShape(s[1..]);
    }
  }

  lemma {:induction false} TrimBackShape(s: string)
    requires KeyChars(s) && NoDoubleHyphen(s)
    ensures var r := TrimHyphensBack(s); KeyChars(r) && NoDoubleHyphen(r) && r <= s && (r != "" ==> r[|r| - 1] != '-')
    ensures s != "" && s[0] != '-' ==> TrimHyphensBack(s) != ""
  {
    if s != "" && s[|s| - 1] == '-' {
      TrimBackShape(s[..|s| - 1]);
    }
  }

  lemma WithKeyStartShape(s: string)
    requires KeyChars(s) && NoDoubleHyphen(s) && (s != "" ==> s[0] != '-' && s[|s| - 1] != '-')
    ensures var r := WithKeyStart(s);
            && r != "" && KeyChars(r) && NoDoubleHyphen(r) && (Letter(r[0]) || r[0] == '_') && r[|r| - 1] != '-'
  {
  }

  lemma TruncateShape(s: string)
    requires s != "" && KeyChars(s) && NoDoubleHyphen(s) && (Letter(s[0]) || s[0] == '_') && s[|s| - 1] != '-'
    ensures NormalName(Truncate(s))
  {
    if |s| > MAX_LENGTH {
      TrimBackShape(s[..MAX_LENGTH]);
    }
  }

  /** Whatever the input: the result is a valid key in normal form. */
  lemma NormalizedIsNormal(lower: string -> string, name: string)
    ensures NormalName(NormalizeServerName(lower, name))
  {
    var kept := KeepKeyChars(ReplaceBlanks(lower(name), false));
    KeepKeyCharsShape(ReplaceBlanks(lower(name), false));
    CollapseShape(kept);
    var collapsed := CollapseHyphens(kept);
    TrimFrontShape(collapsed);
    TrimBackShape(TrimHyphensFront(collapsed));
    var trimmed := TrimHyphensBack(TrimHyphensFront(collapsed));
    WithKeyStartShape(trimmed);
    TruncateShape(WithKeyStart(trimmed));
  }

  lemma {:induction false} NothingToReplace(s: string, inRun: bool)
    requires KeyChars(s)
    ensures ReplaceBlanks(s, inRun) == s && KeepKeyChars(s) == s
  {
    if s != "" {
      NothingToReplace(s[1..], false);
    }
  }

  lemma {:induction false} NothingToCollapse(s: string)
    requires NoDoubleHyphen(s)
    ensures CollapseHyphens(s) == s
  {
    if |s| >= 2 {
      NothingToCollapse(s[1..]);
    }
  }

  /**
   * A name in normal form that lower-casing leaves alone is its own normal form, so normalising twice changes nothing.
   */
  lemma NormalNameFixed(lower: string -> string, name: string)
    requires NormalName(name) && lower(name) == name
    ensures NormalizeServerName(lower, name) == name
  {
    NothingToReplace(name, false);
    NothingToCollapse(name);
  }

  // ------------------------------------------------------------------ unique names

  /** `${base}-${n}` */
  function Suffixed(base: string, n: nat): string {
    base + "-" + Decimal(n)
  }

  lemma SuffixedInjective(base: string, m: nat, n: nat)
    requires Suffixed(base, m) == Suffixed(base, n)
    ensures m == n
  {
    assert Suffixed(base, m)[|base| + 1..] == Decimal(m);
    assert Suffixed(base, n)[|base| + 1..] == Decimal(n);
    DecimalInjective(m, n);
  }

  /** All suffixed names from the second up to, but not including, the n-th are taken. */
  ghost predicate TakenBelow(base: string, taken: set<string>, n: nat) {
    forall k: nat :: 2 <= k < n ==> Suffixed(base, k) in taken
  }

  /** The first free name among base, base-2, ... base-1000. */
  function UniqueName(base: string, taken: set<string>): Option<string> {
    if base !in taken then Some(base) else UniqueFrom(base, taken, 2)
  }

  function UniqueFrom(base: string, taken: set<string>, counter: nat): Option<string>
    decreases LAST_SUFFIX + 1 - counter
  {
    if counter > LAST_SUFFIX then None
    else if Suffixed(base, counter) !in taken then Some(Suffixed(base, counter))
    else UniqueFrom(base, taken, counter + 1)
  }

  /** The loop of generateUniqueName; no name means that it throws. */
  method GenerateUniqueName(baseName: string, existingNames: set<string>) returns (name: Option<string>)
    ensures name == UniqueName(baseName, existingNames)
  {
    if baseName !in existingNames {
      return Some(baseName);
    }
    var counter := 2;
    var candidate := Suffixed(baseName, counter);
    while candidate in existingNames
      invariant 2 <= counter <= LAST_SUFFIX && candidate == Suffixed(baseName, counter)
      invariant UniqueFrom(baseName, existingNames, counter) == UniqueName(baseName, existingNames)
      decreases LAST_SUFFIX - counter
    {
      counter := counter + 1;
      candidate := Suffixed(baseName, counter);
      if counter > LAST_SUFFIX {
        return None;
      }
    }
    name := Some(candidate);
  }

  lemma {:induction false} UniqueFromExact(base: string, taken: set<string>, counter: nat)
    requires TakenBelow(base, taken, counter) && 2 <= counter <= LAST_SUFFIX + 1
    ensures match UniqueFrom(base, taken, counter)
            case Some(name) =>
              && name !in taken
              && exists n: nat :: counter <= n <= LAST_SUFFIX && name == Suffixed(base, n) && TakenBelow(base, taken, n)
            case None => TakenBelow(base, taken, LAST_SUFFIX + 1)
    decreases LAST_SUFFIX + 1 - counter
  {
    if counter <= LAST_SUFFIX && Suffixed(base, counter) in taken {
      UniqueFromExact(base, taken, counter + 1);
    }
  }

  /**
   * The name is free and the suffix the smallest possible; there is none exactly when base and all 999 suffixed names
   * are taken.
   */
  lemma UniqueNameExact(base: string, taken: set<string>)
    ensures match UniqueName(base, taken)
            case Some(name) =>
              && name !in taken
              && if base !in taken then name == base
                 else exists n: nat :: 2 <= n <= 1000 && name == Suffixed(base, n) && TakenBelow(base, taken, n)
            case None => base in taken && TakenBelow(base, taken, 1001)
  {
    UniqueFromExact(base, taken, 2);
  }

  /** base-2 to base-n */
  ghost function SuffixedNames(base: string, n: nat): set<string>
    requires n >= 1
  {
    if n == 1 then {} else SuffixedNames(base, n - 1) + {Suffixed(base, n)}
  }

  lemma {:induction false} SuffixedNamesCount(base: string, n: nat)
    requires n >= 1
    ensures |SuffixedNames(base, n)| == n - 1 && base !in SuffixedNames(base, n)
    ensures forall k: nat :: k > n ==> Suffixed(base, k) !in SuffixedNames(base, n)
  {
    if n > 1 {
      SuffixedNamesCount(base, n - 1);
      assert |Suffixed(base, n)| > |base|;
      forall k: nat | k > n ensures Suffixed(base, k) !in SuffixedNames(base, n) {
        if Suffixed(base, k) == Suffixed(base, n) {
          SuffixedInjective(base, k, n);
        }
      }
    }
  }

  lemma {:induction false} SuffixedNamesTaken(base: string, taken: set<string>, n: nat)
    requires n >= 1 && TakenBelow(base, taken, n + 1)
    ensures SuffixedNames(base, n) <= taken
  {
    if n > 1 {
      SuffixedNamesTaken(base, taken, n - 1);
    }
  }

  lemma AllTakenIsMany(base: string, taken: set<string>)
    requires base in taken && TakenBelow(base, taken, LAST_SUFFIX + 1)
    ensures |taken| >= LAST_SUFFIX
  {
    SuffixedNamesCount(base, LAST_SUFFIX);
    SuffixedNamesTaken(base, taken, LAST_SUFFIX);
    var all := SuffixedNames(base, LAST_SUFFIX) + {base};
    assert taken == all + (taken - all);
  }

  /** With fewer than a thousand names in use there always is a unique name. */
  lemma FewNamesSuffice(base: string, taken: set<string>)
    requires |taken| < 1000
    ensures UniqueName(base, taken).Some?
  {
    UniqueNameExact(base, taken);
    if UniqueName(base, taken) == None {
      AllTakenIsMany(base, taken);
    }
  }

  // ------------------------------------------------------------------ whether a unique name is a valid key

  lemma DecimalIsKey(n: nat)
    ensures KeyChars(Decimal(n))
  {
    DecimalRoundTrip(n);
  }

  /** A suffixed name is a valid key exactly when base and suffix fit the length of a key. */
  lemma SuffixedValid(base: string, n: nat)
    requires NormalName(base)
    ensures IsValidServerName(Suffixed(base, n)) <==> |base| + 1 + |Decimal(n)| <= 64
  {
    var name := Suffixed(base, n);
    DecimalIsKey(n);
    assert forall i :: 0 <= i < |name| ==> KeyChar(name[i]);
    assert name[0] == base[0];
  }

  /** A larger number has no fewer digits. */
  lemma {:induction false} DecimalGrows(m: nat, n: nat)
    requires m <= n
    ensures |Decimal(m)| <= |Decimal(n)|
    decreases n
  {
    if n >= 10 {
      DecimalGrows(m / 10, n / 10);
    }
  }

  /** The n-th suffix is free, and fits with the base. */
  ghost predicate FreeAndFits(base: string, taken: set<string>, n: nat) {
    2 <= n <= 1000 && Suffixed(base, n) !in taken && |base| + 1 + |Decimal(n)| <= 64
  }

  ghost predicate SomeSuffixFits(base: string, taken: set<string>) {
    exists n: nat :: FreeAndFits(base, taken, n)
  }

  /** The base itself is free, or some free suffix fits. */
  ghost predicate Fits(base: string, taken: set<string>) {
    base !in taken || SomeSuffixFits(base, taken)
  }

  /** The unique name is a valid key exactly when the base is free or has a free suffix that fits. */
  lemma UniqueNameValid(base: string, taken: set<string>)
    requires NormalName(base) && UniqueName(base, taken).Some?
    ensures IsValidServerName(UniqueName(base, taken).value) <==> Fits(base, taken)
  {
    UniqueFromExact(base, taken, 2);
    if base in taken {
      var name := UniqueName(base, taken).value;
      var n: nat :| 2 <= n <= LAST_SUFFIX && name == Suffixed(base, n) && TakenBelow(base, taken, n);
      SuffixedValid(base, n);
      if IsValidServerName(name) {
        assert FreeAndFits(base, taken, n);
      }
      if k: nat :| FreeAndFits(base, taken, k) {
        DecimalGrows(n, k);
      }
    }
  }

  /** A name of full length that is taken is renamed to something that is no valid key. */
  lemma FullNameOverflows(base: string, taken: set<string>)
    requires NormalName(base) && |base| == 64 && base in taken && Suffixed(base, 2) !in taken
    ensures UniqueName(base, taken) == Some(Suffixed(base, 2)) && |Suffixed(base, 2)| == 66
    ensures !IsValidServerName(Suffixed(base, 2))
  {
    assert |Decimal(2)| == 1;
    SuffixedValid(base, 2);
  }
}
