/**
 * Action tokens (src/capabilities/routing.ts:122-135), decimal suffixes, and why a name of the form
 * base__rest can be taken apart in one way only.
 */
module Tokens {
  import opened Common
  import Words

  predicate IsDigit(c: char) {
    '0' <= c <= '9'
  }

  /** [a-z0-9] */
  predicate Plain(c: char) {
    'a' <= c <= 'z' || IsDigit(c)
  }

  const SEPARATOR := "__"

  /** s.replace(/[^a-z0-9]+/g, "_"); inRun says that the previous character was replaced. */
  function ReplaceRuns(s: string, inRun: bool): string {
    if s == "" then ""
    else if Plain(s[0]) then [s[0]] + ReplaceRuns(s[1..], false)
    else if inRun then ReplaceRuns(s[1..], true)
    else "_" + ReplaceRuns(s[1..], true)
  }

  function TrimFront(s: string): string {
    if s != "" && s[0] == '_' then TrimFront(s[1..]) else s
  }

  function TrimBack(s: string): string {
    if s != "" && s[|s| - 1] == '_' then TrimBack(s[..|s| - 1]) else s
  }

  /** s.replace(/_+/g, "_") */
  function CollapseRuns(s: string): string {
    if |s| < 2 then s
    else if s[0] == '_' && s[1] == '_' then CollapseRuns(s[1..])
    else [s[0]] + CollapseRuns(s[1..])
  }

  /** toActionToken after lower-casing, which is a parameter: any string function will do. */
  function ToActionToken(lower: string -> string, value: string): string {
    var normalized := CollapseRuns(TrimBack(TrimFront(ReplaceRuns(lower(value), false))));
    if |normalized| > 0 then normalized else "tool"
  }

  predicate NameChar(c: char) {
    Plain(c) || c == '_'
  }

  /** Only lower-case letters, digits and underscores. */
  ghost predicate NameChars(s: string) {
    forall i :: 0 <= i < |s| ==> NameChar(s[i])
  }

  /** No two underscores in a row. */
  ghost predicate NoDouble(s: string) {
    forall i :: 0 <= i < |s| - 1 ==> !(s[i] == '_' && s[i + 1] == '_')
  }

  ghost predicate IsToken(s: string) {
    s != "" && NameChars(s) && NoDouble(s) && s[0] != '_' && s[|s| - 1] != '_'
  }

  lemma {:induction false} ReplaceRunsShape(s: string, inRun: bool)
    ensures var r := ReplaceRuns(s, inRun); NameChars(r) && NoDouble(r) && (inRun && r != "" ==> r[0] != '_')
  {
    if s != "" {
      ReplaceRunsShape(s[1..], false);
      ReplaceRunsShape(s[1..], true);
    }
  }

  lemma {:induction false} TrimFrontShape(s: string)
    requires NameChars(s) && NoDouble(s)
    ensures var r := TrimFront(s); NameChars(r) && NoDouble(r) && (r != "" ==> r[0] != '_')
  {
    if s != "" && s[0] == '_' {
      TrimFrontShape(s[1..]);
    }
  }

  lemma {:induction false} TrimBackShape(s: string)
    requires NameChars(s) && NoDouble(s) && (s != "" ==> s[0] != '_')
    ensures var r := TrimBack(s); r == "" || IsToken(r)
  {
    if s != "" && s[|s| - 1] == '_' {
      TrimBackShape(s[..|s| - 1]);
    }
  }

  lemma {:induction false} CollapseNothing(s: string)
    requires NoDouble(s)
    ensures CollapseRuns(s) == s
  {
    if |s| >= 2 {
      CollapseNothing(s[1..]);
    }
  }

  /** Whatever the input, a token is non-empty, never contains "__" and never starts or ends with "_". */
  lemma TokenShape(lower: string -> string, value: string)
    ensures IsToken(ToActionToken(lower, value))
  {
    var replaced := ReplaceRuns(lower(value), false);
    ReplaceRunsShape(lower(value), false);
    TrimFrontShape(replaced);
    TrimBackShape(TrimFront(replaced));
    CollapseNothing(TrimBack(TrimFront(replaced)));
  }

  lemma {:induction false} ReplaceNothing(s: string)
    requires NameChars(s) && NoDouble(s)
    ensures ReplaceRuns(s, false) == s
    ensures s != "" && s[0] != '_' ==> ReplaceRuns(s, true) == s
  {
    if s != "" {
      ReplaceNothing(s[1..]);
      assert s == [s[0]] + s[1..];
    }
  }

  /** A token that lower-casing leaves alone is its own token; normalising twice changes nothing. */
  lemma TokenFixed(lower: string -> string, token: string)
    requires IsToken(token) && lower(token) == token
    ensures ToActionToken(lower, token) == token
  {
    ReplaceNothing(token);
    CollapseNothing(token);
  }

  lemma {:induction false} ReplaceRunsGaps(s: string, inRun: bool)
    ensures ReplaceRuns(s, inRun) == Words.ReplaceGaps(Plain, '_', s, inRun)
  {
    if s != "" {
      ReplaceRunsGaps(s[1..], false);
      ReplaceRunsGaps(s[1..], true);
    }
  }

  /** Neither end is an underscore, and no two are next to each other. */
  ghost predicate Tight(j: string) {
    j != "" && j[0] != '_' && j[|j| - 1] != '_' && NoDouble(j)
  }

  lemma TrimFrontMark(head: string, s: string)
    requires head in {"", "_"} && s != "" && s[0] != '_'
    ensures TrimFront(head + s) == s
  {
    if head == "_" {
      assert (head + s)[1..] == s;
    } else {
      assert head + s == s;
    }
  }

  lemma TrimBackMark(s: string, tail: string)
    requires tail in {"", "_"} && s != "" && s[|s| - 1] != '_'
    ensures TrimBack(s + tail) == s
  {
    if tail == "_" {
      assert (s + tail)[..|s|] == s;
    } else {
      assert s + tail == s;
    }
  }

  lemma MarkedToken(head: string, j: string, tail: string)
    requires head in {"", "_"} && tail in {"", "_"} && Tight(j)
    ensures CollapseRuns(TrimBack(TrimFront(head + j + tail))) == j
  {
    AppendAssociates(head, j, tail);
    TrimFrontMark(head, j + tail);
    TrimBackMark(j, tail);
    CollapseNothing(j);
  }

  lemma JoinedIsTight(words: seq<string>)
    requires words != [] && forall i :: 0 <= i < |words| ==> words[i] != "" && Words.AllOf(Plain, words[i])
    ensures Tight(Words.JoinedBy('_', words))
  {
    Words.JoinedShape(Plain, '_', words);
  }

  /**
   * The token of any value: lower-cased, it is words of letters and digits with gaps of other characters, and its token
   * is those words with one underscore between them, or "tool" if there is no word.
   */
  lemma TokenOfWords(lower: string -> string, value: string, words: seq<string>, gaps: seq<string>)
    requires Words.Spaced(Plain, words, gaps) && lower(value) == Words.Spread(words, gaps)
    ensures ToActionToken(lower, value) == if words == [] then "tool" else Words.JoinedBy('_', words)
  {
    ReplaceRunsGaps(lower(value), false);
    Words.ReplacedWords(Plain, '_', words, gaps);
    if words == [] {
      NothingButMarks(gaps[0]);
    } else {
      JoinedIsTight(words);
      MarkedToken(Words.Mark('_', gaps[0]), Words.JoinedBy('_', words), Words.Mark('_', gaps[|words|]));
    }
  }

  lemma NothingButMarks(gap: string)
    ensures TrimFront(Words.Mark('_', gap)) == ""
  {
    assert "_"[1..] == "";
  }

  /** Every value has such words. */
  lemma TokenHasWords(lower: string -> string, value: string) returns (words: seq<string>, gaps: seq<string>)
    ensures Words.Spaced(Plain, words, gaps) && lower(value) == Words.Spread(words, gaps)
  {
    words, gaps := Words.WordsExist(Plain, lower(value));
  }

  // ------------------------------------------------------------------ decimal numbers

  ghost predicate AllDigits(s: string) {
    s != "" && forall i :: 0 <= i < |s| ==> IsDigit(s[i])
  }

  function Digit(n: nat): char
    requires n < 10
  {
    '0' + n as char
  }

  /** The decimal form of a number, as a template literal prints it. */
  function Decimal(n: nat): string {
    if n < 10 then [Digit(n)] else Decimal(n / 10) + [Digit(n % 10)]
  }

  /** Number.parseInt(s, 10) on digits. */
  function ParseDecimal(s: string): nat
    requires forall i :: 0 <= i < |s| ==> IsDigit(s[i])
  {
    if s == "" then 0
    else
      var last := s[|s| - 1];
      assert IsDigit(last);
      ParseDecimal(s[..|s| - 1]) * 10 + (last as int - '0' as int)
  }

  lemma {:induction false} DecimalShape(n: nat)
    ensures AllDigits(Decimal(n))
  {
    if n >= 10 {
      DecimalShape(n / 10);
    }
  }

  lemma {:induction false} DecimalRoundTrip(n: nat)
    ensures AllDigits(Decimal(n)) && ParseDecimal(Decimal(n)) == n
  {
    DecimalShape(n);
    if n >= 10 {
      DecimalRoundTrip(n / 10);
      assert Decimal(n)[..|Decimal(n)| - 1] == Decimal(n / 10);
    } else {
      assert Decimal(n)[..0] == "";
    }
  }

  lemma DecimalInjective(a: nat, b: nat)
    requires Decimal(a) == Decimal(b)
    ensures a == b
  {
    DecimalRoundTrip(a);
    DecimalRoundTrip(b);
  }

  // ------------------------------------------------------------------ taking names apart

  /** base__rest */
  function Joined(base: string, rest: string): string {
    base + SEPARATOR + rest
  }

  lemma JoinedParts(base: string, rest: string)
    ensures |Joined(base, rest)| == |base| + 2 + |rest|
    ensures Joined(base, rest)[..|base|] == base && Joined(base, rest)[|base| + 2..] == rest
    ensures Joined(base, rest)[|base|] == '_' && Joined(base, rest)[|base| + 1] == '_'
    ensures forall i :: 0 <= i < |base| ==> Joined(base, rest)[i] == base[i]
  {
  }

  /** A token is never of the form base__rest. */
  lemma TokenIsNotJoined(token: string, base: string, rest: string)
    requires NoDouble(token)
    ensures token != Joined(base, rest)
  {
    JoinedParts(base, rest);
  }

  /** Nothing of the form base__rest can be a proper beginning of a string without "__" that does not end in "_". */
  lemma ShorterHeadImpossible(a: string, x: string, b: string, y: string)
    requires IsToken(a) && IsToken(b) && |a| < |b|
    ensures Joined(a, x) != Joined(b, y)
  {
    JoinedParts(a, x);
    JoinedParts(b, y);
    if b[|a|] == '_' {
      assert Joined(b, y)[|a| + 1] == b[|a| + 1] != '_';
    } else {
      assert Joined(b, y)[|a|] == b[|a|];
    }
  }

  /** base__rest determines base and rest when the base is a token. */
  lemma JoinedUnique(a: string, x: string, b: string, y: string)
    requires IsToken(a) && IsToken(b) && Joined(a, x) == Joined(b, y)
    ensures a == b && x == y
  {
    if |a| < |b| {
      ShorterHeadImpossible(a, x, b, y);
    } else if |b| < |a| {
      ShorterHeadImpossible(b, y, a, x);
    }
    JoinedParts(a, x);
    JoinedParts(b, y);
  }

  lemma JoinedCancel(base: string, x: string, y: string)
    requires Joined(base, x) == Joined(base, y)
    ensures x == y
  {
    JoinedParts(base, x);
    JoinedParts(base, y);
  }

  lemma JoinedNests(a: string, b: string, c: string)
    ensures Joined(Joined(a, b), c) == Joined(a, Joined(b, c))
  {
  }

  // ------------------------------------------------------------------ the numeric suffix

  /** Where the digits at the end of the string begin. */
  function DigitsStart(s: string): (k: nat)
    ensures k <= |s| && forall i :: k <= i < |s| ==> IsDigit(s[i])
    ensures k > 0 ==> !IsDigit(s[k - 1])
  {
    if s == "" || !IsDigit(s[|s| - 1]) then |s| else DigitsStart(s[..|s| - 1])
  }

  /** The match of /^(.*)__(\d+)$/: what precedes the last "__", and the number after it. */
  function SuffixMatch(s: string): Option<(string, nat)> {
    var k := DigitsStart(s);
    if 2 <= k < |s| && s[k - 1] == '_' && s[k - 2] == '_' then Some((s[..k - 2], ParseDecimal(s[k..]))) else None
  }

  lemma DigitsStartUnique(s: string, k: nat)
    requires k <= |s| && (forall i :: k <= i < |s| ==> IsDigit(s[i])) && (k > 0 ==> !IsDigit(s[k - 1]))
    ensures DigitsStart(s) == k
  {
    var d := DigitsStart(s);
    assert k > 0 ==> !IsDigit(s[k - 1]);
    assert d > 0 ==> !IsDigit(s[d - 1]);
  }

  lemma SuffixOfNumbered(base: string, digits: string)
    requires AllDigits(digits)
    ensures SuffixMatch(Joined(base, digits)) == Some((base, ParseDecimal(digits)))
  {
    JoinedParts(base, digits);
    var s := Joined(base, digits);
    forall i | |base| + 2 <= i < |s| ensures IsDigit(s[i]) {
      assert s[i] == digits[i - |base| - 2];
    }
    DigitsStartUnique(s, |base| + 2);
  }

  /** A match takes the string apart. */
  lemma SuffixMatchParts(s: string)
    requires SuffixMatch(s).Some?
    ensures exists digits :: AllDigits(digits) && s == Joined(SuffixMatch(s).value.0, digits)
                          && SuffixMatch(s).value.1 == ParseDecimal(digits)
  {
    var k := DigitsStart(s);
    var digits := s[k..];
    assert s == s[..k - 2] + SEPARATOR + digits;
    assert AllDigits(digits);
  }
}
